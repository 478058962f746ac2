/** What `clean_filename`, `os.path.splitext` and the stored-name builder guarantee:
    the cleaned name is the filtered words joined by single spaces, cleaning a short
    name twice changes nothing, shortening keeps the extension, and a stored upload
    keeps its extension (after a second copy of it inside the cleaned name). */
module FilenameLemmas {
  import opened Text
  import opened TextLemmas
  import opened Numbers
  import opened Filenames

  /** Collapsing whitespace runs keeps the words. */
  lemma {:induction false} WordsOfCollapse(s: string)
    ensures Words(Collapse(s)) == Words(s)
    decreases |s|
  {
    if s != [] {
      if IsSpace(s[0]) {
        var t := TrimStart(s);
        var rest := Collapse(t);
        assert (" " + rest)[1..] == rest;
        WordsOfCollapse(t);
        WordsOfTrimStart(s);
      } else {
        var k := WordLen(s);
        var rest := Collapse(s[k..]);
        WordsOfCollapse(s[k..]);
        WordsAppend(s[..k], rest);
        WordsOfWord(s[..k]);
      }
    }
  }

  /** A single-spaced string without space at either end is its words joined by spaces. */
  lemma {:induction false} JoinWordsOfSingleSpaced(r: string)
    requires SingleSpaced(r)
    requires r == [] || (!IsSpace(r[0]) && !IsSpace(r[|r| - 1]))
    ensures r == Join(Words(r), " ")
    decreases |r|
  {
    if r != [] {
      var k := WordLen(r);
      if k == |r| {
        assert r[..k] == r;
        WordsOfWord(r);
      } else {
        var tail := r[k + 1..];
        SpaceAfterWord(r, k);
        JoinWordsOfSingleSpaced(tail);
        WordThenRest(r, k);
        WordsNotEmpty(tail);
        JoinCons(r[..k], Words(tail));
        Rejoin(r, k);
      }
    }
  }

  /** After the first word of a single-spaced string trimmed at both ends comes exactly
      one space and then another such string. */
  lemma SpaceAfterWord(r: string, k: int)
    requires SingleSpaced(r) && r != [] && !IsSpace(r[0]) && !IsSpace(r[|r| - 1])
    requires k == WordLen(r) && k < |r|
    ensures r[k] == ' ' && k + 1 < |r|
    ensures SingleSpaced(r[k + 1..]) && !IsSpace(r[k + 1..][0]) && !IsSpace(r[k + 1..][|r| - k - 2])
  {
    assert NoDoubleSpaceAt(r, k);
    SliceSingleSpaced(r, k + 1, |r|);
    assert r[k + 1..] == r[k + 1..|r|];
  }

  /** The words of a string that starts with a word and a space. */
  lemma WordThenRest(r: string, k: int)
    requires r != [] && !IsSpace(r[0]) && k == WordLen(r) && k < |r|
    ensures Words(r) == [r[..k]] + Words(r[k + 1..])
  {
    assert r[k..][1..] == r[k + 1..];
  }

  lemma WordsNotEmpty(s: string)
    requires s != [] && !IsSpace(s[0])
    ensures Words(s) != []
  {
  }

  lemma JoinCons(w: string, ws: seq<string>)
    requires ws != []
    ensures Join([w] + ws, " ") == w + " " + Join(ws, " ")
  {
    assert ([w] + ws)[1..] == ws;
  }

  lemma Rejoin(r: string, k: int)
    requires 0 <= k < |r| && r[k] == ' '
    ensures r == r[..k] + " " + r[k + 1..]
  {
  }

  /** The two substitutions and the strip amount to joining the surviving words with
      single spaces. */
  lemma TidyIsJoinedWords(name: string)
    ensures Tidy(name) == Join(Words(Filter(name)), " ")
  {
    var c := Collapse(Filter(name));
    WordsOfCollapse(Filter(name));
    WordsOfStrip(c);
    JoinWordsOfSingleSpaced(Tidy(name));
  }

  /** Whitespace collapsing does nothing to a string that is already single-spaced. */
  lemma {:induction false} CollapseOfSingleSpaced(s: string)
    requires SingleSpaced(s)
    ensures Collapse(s) == s
    decreases |s|
  {
    if s != [] {
      if IsSpace(s[0]) {
        SingleSpaceRun(s);
        CollapseOfSingleSpaced(s[1..]);
        CollapseSpaceCase(s);
      } else {
        SingleSpacedAfterWord(s, WordLen(s));
        CollapseOfSingleSpaced(s[WordLen(s)..]);
        CollapseWordCase(s);
      }
    }
  }

  lemma CollapseSpaceCase(s: string)
    requires s != [] && IsSpace(s[0]) && s[0] == ' ' && TrimStart(s) == s[1..]
    requires Collapse(s[1..]) == s[1..]
    ensures Collapse(s) == s
  {
    assert s == [' '] + s[1..];
  }

  lemma CollapseWordCase(s: string)
    requires s != [] && !IsSpace(s[0])
    requires Collapse(s[WordLen(s)..]) == s[WordLen(s)..]
    ensures Collapse(s) == s
  {
    var k := WordLen(s);
    CollapseOfWord(s);
    SplitRejoins(s, k, Collapse(s), Collapse(s[k..]));
  }

  lemma SplitRejoins(s: string, k: int, whole: string, tail: string)
    requires 0 <= k <= |s| && tail == s[k..] && whole == s[..k] + tail
    ensures whole == s
  {
    assert s[..k] + s[k..] == s;
  }

  /** A string that starts with a word keeps that word and collapses what follows it. */
  lemma CollapseOfWord(s: string)
    requires s != [] && !IsSpace(s[0])
    ensures Collapse(s) == s[..WordLen(s)] + Collapse(s[WordLen(s)..])
  {
  }

  /** In a single-spaced string a leading whitespace run is one plain space. */
  lemma SingleSpaceRun(s: string)
    requires SingleSpaced(s) && s != [] && IsSpace(s[0])
    ensures s[0] == ' ' && TrimStart(s) == s[1..] && SingleSpaced(s[1..])
  {
    if |s| > 1 {
      assert NoDoubleSpaceAt(s, 0);
      assert TrimStart(s) == TrimStart(s[1..]);
    }
    SliceSingleSpaced(s, 1, |s|);
    assert s[1..] == s[1..|s|];
  }

  /** What follows the first word of a single-spaced string is single-spaced. */
  lemma SingleSpacedAfterWord(s: string, k: int)
    requires SingleSpaced(s) && 0 <= k <= |s|
    ensures SingleSpaced(s[k..])
  {
    SliceSingleSpaced(s, k, |s|);
    assert s[k..] == s[k..|s|];
  }

  /** A string already in cleaned form is its own tidy form. */
  lemma TidyOfTidy(t: string)
    requires SingleSpaced(t)
    requires t == [] || (!IsSpace(t[0]) && !IsSpace(t[|t| - 1]))
    requires forall c | c in t :: CleanChar(c)
    ensures Tidy(t) == t
  {
    forall i | 0 <= i < |t| ensures KeepChar(t[i]) {
      assert t[i] in t;
    }
    CollapseOfSingleSpaced(t);
    StripTrimmed(t);
  }

  /** Cleaning is idempotent whenever no shortening was needed. */
  lemma CleanFilenameIdempotent(name: string)
    requires |Tidy(name)| <= MaxCleanLength
    ensures CleanFilename(CleanFilename(name)) == CleanFilename(name)
  {
    var t := Tidy(name);
    if t == [] {
      PlaceholderIsClean();
      assert SingleSpaced(Placeholder) by {
        forall i | 0 <= i < |Placeholder| ensures !IsSpace(Placeholder[i]) {
          assert Placeholder[i] in Placeholder;
        }
      }
      TidyOfTidy(Placeholder);
    } else {
      TidyOfTidy(t);
    }
  }

  /** A shortened name is at most 100 characters long when the extension has at most 10. */
  lemma ShortenedLength(name: string)
    requires |Tidy(name)| > MaxCleanLength && |SplitExt(Tidy(name)).1| <= MaxCleanLength - StemKeep
    ensures |CleanFilename(name)| <= MaxCleanLength
  {
  }

  /** A cleaned name starts with a non-space character, so it is never blank. */
  lemma CleanNotBlank(name: string)
    ensures !IsSpace(CleanFilename(name)[0])
    ensures !IsBlank(CleanFilename(name))
  {
    var t := Tidy(name);
    var r := CleanFilename(name);
    if t == [] {
      assert r[0] == 'u';
    } else if |t| > MaxCleanLength {
      ShortenKeepsFirst(t);
    }
    FirstNotBlank(r);
  }

  /** Shortening keeps the first character. */
  lemma ShortenKeepsFirst(t: string)
    requires t != []
    ensures Shorten(t) != [] && Shorten(t)[0] == t[0]
  {
    var parts := SplitExt(t);
    assert |parts.0| > 0;
    assert parts.0[0] == t[0];
    assert Take(parts.0, StemKeep)[0] == parts.0[0];
  }

  lemma FirstNotBlank(r: string)
    requires r != [] && !IsSpace(r[0])
    ensures !IsBlank(r)
  {
  }

  /** A name of clean characters without spaces, at most 100 long, is its own cleaned form. */
  lemma CleanOfCleanForm(name: string)
    requires 0 < |name| <= MaxCleanLength
    requires forall i | 0 <= i < |name| :: CleanChar(name[i]) && name[i] != ' '
    ensures CleanFilename(name) == name
  {
    assert SingleSpaced(name) && !IsSpace(name[0]) && !IsSpace(name[|name| - 1]) by {
      forall i | 0 <= i < |name| ensures !IsSpace(name[i]) {
        assert CleanChar(name[i]) && name[i] != ' ';
      }
    }
    forall c | c in name ensures CleanChar(c) {
    }
    TidyOfTidy(name);
  }

  /** A stored path starts with the storage directory, so it is never blank. */
  lemma StoredPathNotBlank(userId: int, clean: string, timestamp: int, ext: string)
    ensures StoredPath(userId, clean, timestamp, ext) != []
    ensures !IsBlank(StoredPath(userId, clean, timestamp, ext))
  {
    var p := StoredPath(userId, clean, timestamp, ext);
    assert p[0] == 's';
  }

  /** `rfind` gives the last occurrence. */
  lemma {:induction false} RFindIs(s: string, c: char, i: int)
    requires 0 <= i < |s| && s[i] == c
    requires forall j | i < j < |s| :: s[j] != c
    ensures RFind(s, c) == i
    decreases |s|
  {
    if i < |s| - 1 {
      RFindIs(s[..|s| - 1], c, i);
    }
  }

  /** `rfind` of a character that does not occur is -1. */
  lemma RFindAbsent(s: string, c: char)
    requires c !in s
    ensures RFind(s, c) == -1
  {
  }

  /** When the last dot of `p` sits at `|a|` in a name whose last `/` is at `sep`, and a
      non-dot stands between them, `splitext` cuts exactly there. */
  lemma SplitExtAt(a: string, ext: string, sep: int)
    requires ext != [] && ext[0] == '.' && '.' !in ext[1..] && '/' !in ext
    requires -1 <= sep < |a| && (sep >= 0 ==> a[sep] == '/')
    requires forall j | sep < j < |a| :: a[j] != '/'
    requires exists j | sep + 1 <= j < |a| :: a[j] != '.'
    ensures SplitExt(a + ext) == (a, ext)
  {
    var p := a + ext;
    forall j | |a| < j < |p| ensures p[j] != '.' {
      assert p[j] == ext[j - |a|] == ext[1..][j - |a| - 1];
    }
    RFindIs(p, '.', |a|);
    forall j | sep < j < |p| ensures p[j] != '/' {
      if j >= |a| {
        assert p[j] == ext[j - |a|];
      }
    }
    if sep >= 0 {
      RFindIs(p, '/', sep);
    } else {
      assert '/' !in p by {
        forall j | 0 <= j < |p| ensures p[j] != '/' {
        }
      }
      RFindAbsent(p, '/');
    }
    var j :| sep + 1 <= j < |a| && a[j] != '.';
    assert p[j] != '.';
    assert p[..|a|] == a && p[|a|..] == ext;
  }

  /** A character that is neither a path separator nor a dot, as the digits, minus
      signs and underscores of a stored name are. */
  predicate NameChar(c: char) {
    c != '/' && c != '.'
  }

  /** A printed integer has no `/` and no `.`, and starts with neither. */
  lemma NumeralChars(n: int)
    ensures forall i | 0 <= i < |IntToString(n)| :: NameChar(IntToString(n)[i])
  {
    var s := IntToString(n);
    forall i | 0 <= i < |s| ensures NameChar(s[i]) {
      if n < 0 && i > 0 {
        assert s[i] == s[1..][i - 1];
      }
    }
  }

  /** The stored file keeps the uploaded extension: `splitext` of the stored path gives it
      back, although the cleaned name in the middle usually carries it too. */
  lemma StoredPathKeepsExtension(userId: int, clean: string, timestamp: int, ext: string)
    requires forall c | c in clean :: CleanChar(c)
    requires ext != [] && ext[0] == '.' && '.' !in ext[1..] && '/' !in ext
    ensures SplitExt(StoredPath(userId, clean, timestamp, ext)).1 == ext
  {
    var u := IntToString(userId);
    var ts := IntToString(timestamp);
    var a := StorageDir + "/" + u + "_" + clean + "_" + ts;
    assert StoredPath(userId, clean, timestamp, ext) == a + ext;
    NumeralChars(userId);
    NumeralChars(timestamp);
    var sep := |StorageDir|;
    assert a[sep] == '/';
    forall j | sep < j < |a| ensures a[j] != '/' {
      var k := j - sep - 1;
      if k < |u| {
        assert a[j] == u[k];
      } else if k == |u| {
        assert a[j] == '_';
      } else if k < |u| + 1 + |clean| {
        assert a[j] == clean[k - |u| - 1];
        assert clean[k - |u| - 1] in clean;
      } else if k == |u| + 1 + |clean| {
        assert a[j] == '_';
      } else {
        assert a[j] == ts[k - |u| - 2 - |clean|];
      }
    }
    assert a[sep + 1] == u[0];
    SplitExtAt(a, ext, sep);
  }

  /** Filtering a concatenation filters each part: the filter works character by character. */
  lemma FilterAppend(a: string, b: string)
    ensures Filter(a + b) == Filter(a) + Filter(b)
    decreases |a|
  {
    if a != [] {
      assert (a + b)[1..] == a[1..] + b;
      FilterAppend(a[1..], b);
    } else {
      assert a + b == b;
    }
  }

  /** A string made of kept characters filters to itself. */
  lemma FilterKeeps(s: string)
    requires forall i | 0 <= i < |s| :: KeepChar(s[i])
    ensures Filter(s) == s
  {
  }

  /** A character outside the pattern is dropped wherever it stands, and the kept
      text around it is left as it was. */
  lemma FilterDropsOne(word: string, mark: char, ext: string)
    requires forall i | 0 <= i < |word| :: KeepChar(word[i])
    requires forall i | 0 <= i < |ext| :: KeepChar(ext[i])
    requires !KeepChar(mark)
    ensures Filter(word + [mark] + ext) == word + ext
  {
    var front := word + [mark];
    assert Filter(front) == word by {
      FilterDropsLast(word, mark);
    }
    FilterKeeps(ext);
    FilterAppend(front, ext);
  }

  /** A character outside the pattern at the end is dropped. */
  lemma FilterDropsLast(word: string, mark: char)
    requires forall i | 0 <= i < |word| :: KeepChar(word[i])
    requires !KeepChar(mark)
    ensures Filter(word + [mark]) == word
  {
    FilterKeeps(word);
    FilterAppend(word, [mark]);
    assert Filter([mark]) == [] by {
      assert [mark][1..] == [];
    }
  }

  /** A name without whitespace, after one stray character is dropped, is cleaned to the
      rest, as long as it fits in 100 characters. */
  lemma CleanDropsOne(word: string, mark: char, ext: string)
    requires forall i | 0 <= i < |word| :: CleanChar(word[i]) && word[i] != ' '
    requires forall i | 0 <= i < |ext| :: CleanChar(ext[i]) && ext[i] != ' '
    requires !KeepChar(mark)
    requires 0 < |word + ext| <= MaxCleanLength
    ensures CleanFilename(word + [mark] + ext) == word + ext
  {
    var kept := word + ext;
    FilterDropsOne(word, mark, ext);
    forall i | 0 <= i < |kept| ensures !IsSpace(kept[i]) && CleanChar(kept[i]) {
      if i >= |word| {
        assert kept[i] == ext[i - |word|];
      }
    }
    forall c | c in kept ensures CleanChar(c) {
    }
    assert SingleSpaced(kept);
    TidyOfTidy(kept);
    assert Collapse(kept) == kept by {
      CollapseOfSingleSpaced(kept);
    }
    assert Strip(kept) == kept by {
      assert !IsSpace(kept[0]) && !IsSpace(kept[|kept| - 1]);
    }
  }

  /** "лекция?.pdf" is cleaned to "лекция.pdf". */
  lemma CleanQuestionMarkExample()
    ensures CleanFilename("лекция" + "?" + ".pdf") == "лекция" + ".pdf"
  {
    CleanDropsOne("лекция", '?', ".pdf");
  }

  /** The fallback name "document" has no extension and is refused. */
  lemma DocumentFallbackRefused()
    ensures SplitExt("document").1 == []
    ensures !IsAllowedExtension(SplitExt("document").1)
  {
    RFindAbsent("document", '/');
    RFindAbsent("document", '.');
  }

  /** The allow-list ignores case. */
  lemma UpperCaseExtensionAllowed()
    ensures IsAllowedExtension(".PDF") && IsAllowedExtension(".Docx")
    ensures !IsAllowedExtension(".exe") && !IsAllowedExtension(".pdf ")
  {
    assert LowerStr(".PDF") == ".pdf";
    assert LowerStr(".Docx") == ".docx";
    assert LowerStr(".exe") == ".exe";
    assert LowerStr(".pdf ") == ".pdf ";
  }
}
