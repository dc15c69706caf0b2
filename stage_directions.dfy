/** The stage-direction stripper that the speech synthesizer applies to a reply
    before speaking it (tts.py line 60): Python's `re.sub(r'\*.*?\*', '', text)`.
    The pattern is searched left to right; each match is removed and the search
    resumes after it. `.` does not match a newline, and `.*?` is lazy, so a match
    is an asterisk, the shortest run of non-newline characters, and the next
    asterisk on the same line. */
module StageDirections {
  import opened Wrappers

  /** Offset in `t` of the first '*' that comes before any newline: where the
      lazy `.*?` stops when `t` is the text after an opening asterisk. None when
      the line (or the text) ends first, that is, when the opening asterisk has
      no partner and the match fails. */
  function CloseAt(t: string): (r: Option<nat>)
    ensures r.Some? ==> r.value < |t| && t[r.value] == '*'
  {
    if t == [] then None
    else if t[0] == '*' then Some(0)
    else if t[0] == '\n' then None
    else
      match CloseAt(t[1..])
      case None => None
      case Some(k) => Some(k + 1)
  }

  /** What lies between the two asterisks of a match: neither an asterisk nor
      a newline. */
  lemma {:induction false} CloseAtSpan(t: string)
    requires CloseAt(t).Some?
    ensures forall m :: 0 <= m < CloseAt(t).value ==> t[m] != '*' && t[m] != '\n'
    decreases |t|
  {
    if t[0] != '*' {
      CloseAtSpan(t[1..]);
    }
  }

  /** When there is no closing asterisk, every asterisk of `t` lies on a later
      line. */
  lemma {:induction false} CloseAtUnmatched(t: string)
    requires CloseAt(t).None?
    ensures forall m :: 0 <= m < |t| && t[m] == '*' ==> '\n' in t[..m]
    decreases |t|
  {
    if t != [] && t[0] != '\n' {
      CloseAtUnmatched(t[1..]);
      forall m | 0 <= m < |t| && t[m] == '*' ensures '\n' in t[..m] {
        assert m >= 1 && t[1..][m - 1] == '*';
        assert t[1..][..m - 1] == t[1..m];
      }
    }
  }

  /** The text with every asterisk-delimited span removed. */
  function Strip(s: string): (r: string)
    ensures |r| <= |s|
    decreases |s|
  {
    if s == [] then []
    else if s[0] == '*' && CloseAt(s[1..]).Some? then Strip(s[CloseAt(s[1..]).value + 2..])
    else [s[0]] + Strip(s[1..])
  }

  /** `a` is obtained from `b` by deleting characters. */
  predicate IsSubsequence(a: string, b: string)
    decreases |b|
  {
    a == [] || (b != [] && ((a[0] == b[0] && IsSubsequence(a[1..], b[1..])) || IsSubsequence(a, b[1..])))
  }

  /** No asterisk of `t` has a partner later on its line: every line of `t`
      holds at most one '*', so the pattern has nothing left to match. */
  predicate OneStarPerLine(t: string)
    decreases |t|
  {
    t == [] || ((t[0] == '*' ==> CloseAt(t[1..]).None?) && OneStarPerLine(t[1..]))
  }

  lemma {:induction false} SubsequenceOfSuffix(a: string, b: string, j: nat)
    requires j <= |b|
    requires IsSubsequence(a, b[j..])
    ensures IsSubsequence(a, b)
    decreases j
  {
    if j > 0 {
      assert b[j..] == b[1..][j - 1..];
      SubsequenceOfSuffix(a, b[1..], j - 1);
    }
  }

  /** The output is the input with characters deleted, never added or reordered. */
  lemma {:induction false} StripIsSubsequence(s: string)
    ensures IsSubsequence(Strip(s), s)
    decreases |s|
  {
    if s == [] {
    } else if s[0] == '*' && CloseAt(s[1..]).Some? {
      var k := CloseAt(s[1..]).value;
      StripIsSubsequence(s[k + 2..]);
      SubsequenceOfSuffix(Strip(s), s, k + 2);
    } else {
      StripIsSubsequence(s[1..]);
      assert ([s[0]] + Strip(s[1..]))[1..] == Strip(s[1..]);
    }
  }

  /** A run of text without asterisks at the front is kept as it is. */
  lemma {:induction false} StripKeepsStarFreePrefix(a: string, b: string)
    requires '*' !in a
    ensures Strip(a + b) == a + Strip(b)
    decreases |a|
  {
    if a != [] {
      var s := a + b;
      assert s[0] == a[0] && s[1..] == a[1..] + b;
      assert '*' !in a[1..] by { assert forall c :: c in a[1..] ==> c in a; }
      StripKeepsStarFreePrefix(a[1..], b);
      assert Strip(s) == [a[0]] + Strip(s[1..]);
      assert [a[0]] + (a[1..] + Strip(b)) == a + Strip(b);
    } else {
      assert a + b == b;
    }
  }

  /** A text without any asterisk is spoken as it is. */
  lemma StripWithoutStars(s: string)
    requires '*' !in s
    ensures Strip(s) == s
  {
    StripKeepsStarFreePrefix(s, []);
    assert s + [] == s;
  }

  /** A match, from its opening asterisk to its closing one, holds no newline. */
  lemma SpanHasNoNewline(s: string)
    requires s != [] && s[0] == '*' && CloseAt(s[1..]).Some?
    ensures '\n' !in s[..CloseAt(s[1..]).value + 2]
  {
    var k := CloseAt(s[1..]).value;
    CloseAtSpan(s[1..]);
    var span := s[..k + 2];
    forall m | 0 <= m < |span| ensures span[m] != '\n' {
      if 0 < m < k + 1 { assert s[1..][m - 1] == span[m]; }
    }
  }

  /** A removed span holds no newline, so every newline survives. */
  lemma {:induction false} StripKeepsNewlines(s: string)
    ensures multiset(Strip(s))['\n'] == multiset(s)['\n']
    decreases |s|
  {
    if s == [] {
    } else if s[0] == '*' && CloseAt(s[1..]).Some? {
      var k := CloseAt(s[1..]).value;
      StripKeepsNewlines(s[k + 2..]);
      SpanHasNoNewline(s);
      assert s == s[..k + 2] + s[k + 2..];
      assert multiset(s) == multiset(s[..k + 2]) + multiset(s[k + 2..]);
    } else {
      StripKeepsNewlines(s[1..]);
      assert s == [s[0]] + s[1..];
    }
  }

  /** The lazy `.*?` stops at the first asterisk after the opening one. */
  lemma {:induction false} CloseAtFirstStar(w: string, rest: string)
    requires '*' !in w && '\n' !in w
    ensures CloseAt(w + ['*'] + rest) == Some(|w|)
    decreases |w|
  {
    if w != [] {
      assert (w + ['*'] + rest)[1..] == w[1..] + ['*'] + rest;
      assert '*' !in w[1..] && '\n' !in w[1..] by { assert forall c :: c in w[1..] ==> c in w; }
      CloseAtFirstStar(w[1..], rest);
    }
  }

  /** A stage direction, an asterisk-delimited span with no asterisk or newline
      inside, is removed whole, together with its delimiters. */
  lemma StripRemovesSpan(w: string, rest: string)
    requires '*' !in w && '\n' !in w
    ensures Strip(['*'] + w + ['*'] + rest) == Strip(rest)
  {
    var s := ['*'] + w + ['*'] + rest;
    assert s[1..] == w + ['*'] + rest;
    CloseAtFirstStar(w, rest);
    assert s[|w| + 2..] == rest;
  }

  /** A newline ends the search for a closing asterisk: whatever follows it
      does not matter. */
  lemma {:induction false} CloseAtStopsAtNewline(a: string, b: string)
    ensures CloseAt(a + ['\n'] + b) == CloseAt(a)
    decreases |a|
  {
    if a != [] {
      assert (a + ['\n'] + b)[1..] == a[1..] + ['\n'] + b;
      CloseAtStopsAtNewline(a[1..], b);
    }
  }

  /** Stripping works line by line: no span crosses a newline, and the newline
      itself is kept. */
  lemma {:induction false} StripByLines(a: string, b: string)
    ensures Strip(a + ['\n'] + b) == Strip(a) + ['\n'] + Strip(b)
    decreases |a|
  {
    var s := a + ['\n'] + b;
    if a == [] {
      assert s == ['\n'] + b;
      assert s[1..] == b;
    } else {
      assert s[0] == a[0];
      assert s[1..] == a[1..] + ['\n'] + b;
      CloseAtStopsAtNewline(a[1..], b);
      if a[0] == '*' && CloseAt(a[1..]).Some? {
        var k := CloseAt(a[1..]).value;
        assert s[k + 2..] == a[k + 2..] + ['\n'] + b;
        assert Strip(s) == Strip(s[k + 2..]);
        assert Strip(a) == Strip(a[k + 2..]);
        StripByLines(a[k + 2..], b);
      } else {
        assert Strip(s) == [a[0]] + Strip(s[1..]);
        assert Strip(a) == [a[0]] + Strip(a[1..]);
        StripByLines(a[1..], b);
      }
    }
  }

  /** If the text after an unmatched asterisk has no partner for it, neither
      has the stripped text: the rest of the line has no asterisk, so it is
      kept as it is. */
  lemma {:induction false} StripKeepsUnmatched(t: string)
    requires CloseAt(t).None?
    ensures CloseAt(Strip(t)).None?
    decreases |t|
  {
    if t != [] && t[0] != '\n' {
      assert t[0] != '*';
      StripKeepsUnmatched(t[1..]);
      assert Strip(t)[1..] == Strip(t[1..]);
    }
  }

  /** Every line of the output holds at most one asterisk. */
  lemma {:induction false} StripLeavesOneStarPerLine(s: string)
    ensures OneStarPerLine(Strip(s))
    decreases |s|
  {
    if s == [] {
    } else if s[0] == '*' && CloseAt(s[1..]).Some? {
      StripLeavesOneStarPerLine(s[CloseAt(s[1..]).value + 2..]);
    } else {
      StripLeavesOneStarPerLine(s[1..]);
      var r := Strip(s);
      assert r[0] == s[0] && r[1..] == Strip(s[1..]);
      if s[0] == '*' {
        StripKeepsUnmatched(s[1..]);
      }
    }
  }

  /** Text with at most one asterisk per line is left unchanged, and only
      such text is. */
  lemma {:induction false} StripFixedPoints(t: string)
    ensures Strip(t) == t <==> OneStarPerLine(t)
    decreases |t|
  {
    if t != [] {
      StripFixedPoints(t[1..]);
      if t[0] == '*' && CloseAt(t[1..]).Some? {
        assert |Strip(t)| < |t|;
      } else {
        assert Strip(t) == [t[0]] + Strip(t[1..]);
        assert t == [t[0]] + t[1..];
        if Strip(t) == t {
          assert Strip(t)[1..] == Strip(t[1..]);
        }
      }
    }
  }

  /** Applying the stripper twice gives the same text as applying it once. */
  lemma StripIdempotent(s: string)
    ensures Strip(Strip(s)) == Strip(s)
  {
    StripLeavesOneStarPerLine(s);
    StripFixedPoints(Strip(s));
  }

  /** In a text with one asterisk per line, between any two asterisks there
      is a newline. */
  lemma {:induction false} StarsOnSeparateLines(t: string, i: nat, j: nat)
    requires OneStarPerLine(t)
    requires i < j < |t| && t[i] == '*' && t[j] == '*'
    ensures '\n' in t[i + 1..j]
    decreases i
  {
    if i == 0 {
      CloseAtUnmatched(t[1..]);
      assert t[1..][j - 1] == '*';
      assert t[1..][..j - 1] == t[1..j];
    } else {
      StarsOnSeparateLines(t[1..], i - 1, j - 1);
      assert t[1..][i..j - 1] == t[i + 1..j];
    }
  }

  /** Lazy matching: two short directions on one line are removed separately
      and the text between them is kept ("*a* b *c*" becomes " b "). */
  lemma LazyMatch()
    ensures Strip("*a*" + " b " + "*c*") == " b "
  {
    var s := ['*'] + "a" + ['*'] + (" b " + "*c*");
    assert "*a*" + " b " + "*c*" == s;
    StripRemovesSpan("a", " b " + "*c*");
    StripKeepsStarFreePrefix(" b ", "*c*");
    assert "*c*" == ['*'] + "c" + ['*'] + [];
    StripRemovesSpan("c", []);
  }

  /** A span does not cross a newline. */
  lemma SpanStopsAtNewline()
    ensures Strip("*a\nb*") == "*a\nb*"
  {
  }

  /** The spacing around a direction is kept: "Hello *laughs* there" is
      spoken as "Hello  there", with both spaces. */
  lemma SpacingKept()
    ensures Strip("Hello " + "*laughs*" + " there") == "Hello " + " there"
  {
    var tail := ['*'] + "laughs" + ['*'] + " there";
    assert "Hello " + "*laughs*" + " there" == "Hello " + tail;
    DirectionRemoved();
    StripKeepsStarFreePrefix("Hello ", tail);
  }

  lemma DirectionRemoved()
    ensures Strip(['*'] + "laughs" + ['*'] + " there") == " there"
  {
    StripRemovesSpan("laughs", " there");
    StripWithoutStars(" there");
  }
}
