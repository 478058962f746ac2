/** Facts about the string primitives: round trips between splitting and joining,
    and how whitespace splitting interacts with concatenation, stripping and lower-casing. */
module TextLemmas {
  import opened Text

  /** Runs of non-whitespace stop at the same place when the text is extended past a boundary. */
  lemma {:induction false} WordLenAppend(a: string, b: string)
    requires WordLen(a) < |a| || b == [] || IsSpace(b[0])
    ensures WordLen(a + b) == WordLen(a)
    decreases |a|
  {
    if a == [] {
      assert a + b == b;
    } else if !IsSpace(a[0]) {
      assert (a + b)[1..] == a[1..] + b;
      WordLenAppend(a[1..], b);
    }
  }

  /** The seam between `a` and `b` is whitespace (or one side is empty). */
  predicate SpaceSeam(a: string, b: string) {
    a == [] || b == [] || IsSpace(a[|a| - 1]) || IsSpace(b[0])
  }

  /** Splitting on whitespace distributes over a concatenation whose seam is whitespace. */
  lemma {:induction false} WordsAppend(a: string, b: string)
    requires SpaceSeam(a, b)
    ensures Words(a + b) == Words(a) + Words(b)
    decreases |a|
  {
    var ab := a + b;
    if a == [] {
      assert ab == b;
    } else if IsSpace(a[0]) {
      assert ab[1..] == a[1..] + b;
      assert SpaceSeam(a[1..], b);
      WordsAppend(a[1..], b);
    } else {
      WordsAppendWord(a, b);
    }
  }

  lemma {:induction false} WordsAppendWord(a: string, b: string)
    requires SpaceSeam(a, b) && a != [] && !IsSpace(a[0])
    ensures Words(a + b) == Words(a) + Words(b)
    decreases |a|, 0
  {
    var ab := a + b;
    var k := WordLen(a);
    assert WordLen(ab) == k by {
      if k == |a| {
        assert a[..k] == a;
        assert !IsSpace(a[|a| - 1]);
      }
      WordLenAppend(a, b);
    }
    assert Words(ab) == [a[..k]] + Words(a[k..] + b) by {
      assert ab[0] == a[0];
      assert ab[..k] == a[..k];
      assert ab[k..] == a[k..] + b;
    }
    assert SpaceSeam(a[k..], b) by {
      if a[k..] != [] {
        assert a[k..][|a[k..]| - 1] == a[|a| - 1];
      }
    }
    WordsAppend(a[k..], b);
  }

  /** A whitespace-only string has no words. */
  lemma {:induction false} WordsOfBlank(s: string)
    requires IsBlank(s)
    ensures Words(s) == []
    decreases |s|
  {
    if s != [] {
      WordsOfBlank(s[1..]);
    }
  }

  /** A non-empty string without whitespace is a single word. */
  lemma {:induction false} WordsOfWord(w: string)
    requires w != [] && NoSpace(w)
    ensures Words(w) == [w]
  {
    WordLenOfWord(w);
    assert w[..|w|] == w;
    assert w[|w|..] == [];
  }

  lemma {:induction false} WordLenOfWord(w: string)
    requires NoSpace(w)
    ensures WordLen(w) == |w|
    decreases |w|
  {
    if w != [] {
      WordLenOfWord(w[1..]);
    }
  }

  /** Round trip: splitting a space-joined list of words gives the list back. */
  lemma {:induction false} WordsOfJoin(ws: seq<string>)
    requires forall i | 0 <= i < |ws| :: ws[i] != [] && NoSpace(ws[i])
    ensures Words(Join(ws, " ")) == ws
    decreases |ws|
  {
    if |ws| == 1 {
      WordsOfWord(ws[0]);
    } else if |ws| > 1 {
      var j := Join(ws[1..], " ");
      Regroup(ws[0], " ", j);
      WordsAppend(ws[0], " " + j);
      WordsOfWord(ws[0]);
      WordsOfJoin(ws[1..]);
      WordsAfterSpace(j);
      HeadTail(ws);
    }
  }

  lemma Regroup(a: string, b: string, c: string)
    ensures a + b + c == a + (b + c)
  {
  }

  lemma HeadTail<T>(xs: seq<T>)
    requires xs != []
    ensures [xs[0]] + xs[1..] == xs
  {
  }

  /** A leading space adds no word. */
  lemma WordsAfterSpace(b: string)
    ensures Words(" " + b) == Words(b)
  {
    assert (" " + b)[1..] == b;
  }

  /** Leading whitespace does not change the words. */
  lemma {:induction false} WordsOfTrimStart(s: string)
    ensures Words(TrimStart(s)) == Words(s)
    decreases |s|
  {
    if s != [] && IsSpace(s[0]) {
      WordsOfTrimStart(s[1..]);
    }
  }

  /** Trailing whitespace does not change the words. */
  lemma WordsOfTrimEnd(s: string)
    ensures Words(TrimEnd(s)) == Words(s)
  {
    var t := TrimEnd(s);
    var tail := s[|t|..];
    assert s == t + tail;
    WordsAppend(t, tail);
    WordsOfBlank(tail);
  }

  /** `s.strip().split()` equals `s.split()`. */
  lemma WordsOfStrip(s: string)
    ensures Words(Strip(s)) == Words(s)
  {
    WordsOfTrimStart(s);
    WordsOfTrimEnd(TrimStart(s));
  }

  /** Round trip the other way: splitting on `c` after joining with `c` restores separator-free pieces. */
  lemma {:induction false} SplitOnJoin(ps: seq<string>, c: char)
    requires |ps| >= 1
    requires forall i | 0 <= i < |ps| :: c !in ps[i]
    ensures SplitOn(Join(ps, [c]), c) == ps
    decreases |ps|
  {
    if |ps| == 1 {
      SplitOnPrefix(ps[0], [], c);
      assert ps[0] + [] == ps[0];
    } else {
      var tail := Join(ps[1..], [c]);
      var ct := [c] + tail;
      assert Join(ps, [c]) == ps[0] + ct;
      SplitOnPrefix(ps[0], ct, c);
      assert ct[0] == c && ct[1..] == tail;
      assert SplitOn(ct, c) == [[]] + SplitOn(tail, c);
      SplitOnJoin(ps[1..], c);
      assert ps[0] + [] == ps[0];
      assert [ps[0]] + ps[1..] == ps;
    }
  }

  /** A separator-free prefix is glued onto the first piece. */
  lemma {:induction false} SplitOnPrefix(p: string, t: string, c: char)
    requires c !in p
    ensures SplitOn(p + t, c) == [p + SplitOn(t, c)[0]] + SplitOn(t, c)[1..]
    decreases |p|
  {
    var st := SplitOn(t, c);
    if p == [] {
      assert p + t == t;
      assert p + st[0] == st[0];
      assert st == [st[0]] + st[1..];
    } else {
      var pt := p + t;
      assert pt[0] == p[0] && pt[0] != c;
      assert pt[1..] == p[1..] + t;
      SplitOnPrefix(p[1..], t, c);
      var rest := SplitOn(pt[1..], c);
      assert rest == [p[1..] + st[0]] + st[1..];
      assert SplitOn(pt, c) == [[pt[0]] + rest[0]] + rest[1..];
      assert [p[0]] + (p[1..] + st[0]) == p + st[0];
    }
  }

  /** Lower-casing never turns a non-space into a space or the reverse. */
  lemma LowerKeepsSpace(c: char)
    ensures IsSpace(Lower(c)) <==> IsSpace(c)
  {
  }

  /** Lower-casing never produces a comma from anything but a comma. */
  lemma LowerKeepsComma(c: char)
    ensures Lower(c) == ',' <==> c == ','
  {
  }

  /** Lower-casing twice is lower-casing once. */
  lemma LowerIdempotent(s: string)
    ensures LowerStr(LowerStr(s)) == LowerStr(s)
  {
  }

  /** Lower-casing commutes with slicing. */
  lemma LowerDrop(s: string, i: int)
    requires 0 <= i <= |s|
    ensures LowerStr(s[i..]) == LowerStr(s)[i..]
  {
  }

  lemma LowerTake(s: string, i: int)
    requires 0 <= i <= |s|
    ensures LowerStr(s[..i]) == LowerStr(s)[..i]
  {
  }

  lemma {:induction false} WordLenOfLower(s: string)
    ensures WordLen(LowerStr(s)) == WordLen(s)
    decreases |s|
  {
    if s != [] {
      LowerKeepsSpace(s[0]);
      LowerDrop(s, 1);
      WordLenOfLower(s[1..]);
    }
  }

  /** Every word of a lower-cased string, in order. */
  function LowerAll(ws: seq<string>): (r: seq<string>)
    ensures |r| == |ws|
    ensures forall i | 0 <= i < |ws| :: r[i] == LowerStr(ws[i])
  {
    seq(|ws|, i requires 0 <= i < |ws| => LowerStr(ws[i]))
  }

  /** `s.lower().split()` is `[w.lower() for w in s.split()]`. */
  lemma {:induction false} WordsOfLower(s: string)
    ensures Words(LowerStr(s)) == LowerAll(Words(s))
    decreases |s|
  {
    var l := LowerStr(s);
    if s != [] {
      LowerKeepsSpace(s[0]);
      assert l[0] == Lower(s[0]);
      if IsSpace(s[0]) {
        assert Words(l) == Words(LowerStr(s[1..])) by {
          LowerDrop(s, 1);
        }
        WordsOfLower(s[1..]);
      } else {
        var k := WordLen(s);
        assert Words(l) == [LowerStr(s[..k])] + Words(LowerStr(s[k..])) by {
          WordLenOfLower(s);
          LowerTake(s, k);
          LowerDrop(s, k);
        }
        WordsOfLower(s[k..]);
        assert Words(s) == [s[..k]] + Words(s[k..]);
        LowerAllAppend([s[..k]], Words(s[k..]));
      }
    }
  }

  lemma LowerAllAppend(xs: seq<string>, ys: seq<string>)
    ensures LowerAll(xs + ys) == LowerAll(xs) + LowerAll(ys)
  {
  }

  /** Lower-casing keeps the leading whitespace run exactly as long. */
  lemma {:induction false} LeadingSpacesOfLower(s: string)
    ensures LeadingSpaces(LowerStr(s)) == LeadingSpaces(s)
    decreases |s|
  {
    if s != [] {
      LowerKeepsSpace(s[0]);
      if IsSpace(s[0]) {
        LowerDrop(s, 1);
        LeadingSpacesOfLower(s[1..]);
      }
    }
  }

  /** Lower-casing keeps the trailing whitespace run exactly as long. */
  lemma {:induction false} TrailingSpacesOfLower(s: string)
    ensures TrailingSpaces(LowerStr(s)) == TrailingSpaces(s)
    decreases |s|
  {
    if s != [] {
      LowerKeepsSpace(s[|s| - 1]);
      if IsSpace(s[|s| - 1]) {
        LowerTake(s, |s| - 1);
        TrailingSpacesOfLower(s[..|s| - 1]);
      }
    }
  }

  /** Stripping commutes with lower-casing. */
  lemma TrimStartOfLower(s: string)
    ensures TrimStart(LowerStr(s)) == LowerStr(TrimStart(s))
  {
    LeadingSpacesOfLower(s);
    LowerDrop(s, LeadingSpaces(s));
  }

  lemma TrimEndOfLower(s: string)
    ensures TrimEnd(LowerStr(s)) == LowerStr(TrimEnd(s))
  {
    TrailingSpacesOfLower(s);
    LowerTake(s, |s| - TrailingSpaces(s));
  }

  lemma StripOfLower(s: string)
    ensures Strip(LowerStr(s)) == LowerStr(Strip(s))
  {
    TrimStartOfLower(s);
    TrimEndOfLower(TrimStart(s));
  }

  /** A word followed by one newline strips to the word. */
  lemma StripNewline(b: string)
    requires b != [] && !IsSpace(b[0]) && !IsSpace(b[|b| - 1])
    ensures Strip(b) == b && Strip(b + "\n") == b
  {
    StripTrimmed(b);
    var t := b + "\n";
    assert t[0] == b[0] && t[..|t| - 1] == b;
    assert LeadingSpaces(t) == 0;
    assert TrailingSpaces(t) == 1 + TrailingSpaces(b);
  }
}
