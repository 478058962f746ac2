/**
  The upload naming rules of main.py: `clean_filename`, the extension allow-list and
  the name the bot stores an upload under. `os.path.splitext` and `os.path.join` are
  written out as posixpath defines them.
 */
module Filenames {
  import opened Text
  import opened Numbers

  /** Names longer than this are shortened. */
  const MaxCleanLength := 100
  /** How much of the stem a shortened name keeps. */
  const StemKeep := 90
  /** What `clean_filename` returns when nothing survives cleaning. */
  const Placeholder := "unnamed_file"
  const StorageDir := "storage"
  /** The lower-cased extensions an upload may have. */
  const AllowedExtensions: set<string> := {".pdf", ".doc", ".docx", ".txt", ".ppt", ".pptx"}

  /** `\w` of Python's `re` for ASCII and the Cyrillic block: letters, digits and `_`.
      U+0482..U+0489 are a sign and combining marks, not word characters. */
  predicate IsWordChar(c: char) {
    var n := c as int;
    || ('a' <= c <= 'z') || ('A' <= c <= 'Z') || ('0' <= c <= '9') || c == '_'
    || (0x400 <= n <= 0x481) || (0x48A <= n <= 0x4FF)
  }

  /** The complement of the pattern `[^\w\s\.\-]`: what the first substitution keeps. */
  predicate KeepChar(c: char) {
    IsWordChar(c) || IsSpace(c) || c == '.' || c == '-'
  }

  /** What a cleaned name is made of: word characters, plain spaces, dots and hyphens. */
  predicate CleanChar(c: char) {
    IsWordChar(c) || c == ' ' || c == '.' || c == '-'
  }

  /** No two whitespace characters stand side by side at `i`. */
  predicate NoDoubleSpaceAt(s: string, i: int)
    requires 0 <= i < |s| - 1
  {
    !(IsSpace(s[i]) && IsSpace(s[i + 1]))
  }

  /** Whitespace occurs only as single plain spaces. */
  predicate SingleSpaced(s: string) {
    && (forall i | 0 <= i < |s| :: IsSpace(s[i]) ==> s[i] == ' ')
    && (forall i | 0 <= i < |s| - 1 :: NoDoubleSpaceAt(s, i))
  }

  /** `re.sub(r"[^\w\s\.\-]", "", s)`: every other character is deleted. */
  function Filter(s: string): (r: string)
    ensures |r| <= |s|
    ensures forall i | 0 <= i < |r| :: KeepChar(r[i])
    ensures forall c | c in r :: c in s
    ensures (forall i | 0 <= i < |s| :: KeepChar(s[i])) ==> r == s
    decreases |s|
  {
    if s == [] then []
    else
      var rest := Filter(s[1..]);
      if KeepChar(s[0]) then
        assert forall c | c in rest :: c in s by {
          forall c | c in rest ensures c in s {
            assert c in s[1..];
          }
        }
        [s[0]] + rest
      else
        assert forall c | c in rest :: c in s by {
          forall c | c in rest ensures c in s {
            assert c in s[1..];
          }
        }
        rest
  }

  /** All of `s` survives the first substitution. */
  predicate AllKept(s: string) {
    forall i | 0 <= i < |s| :: KeepChar(s[i])
  }

  /** All of `s` is made of the characters a cleaned name may hold. */
  predicate AllClean(s: string) {
    forall i | 0 <= i < |s| :: CleanChar(s[i])
  }

  /** What collapsing whitespace keeps of `s` in `r`: emptiness, whether each end is
      whitespace, and the characters that were not whitespace, while the whitespace
      left is single plain spaces. */
  predicate Collapsed(s: string, r: string) {
    && (r == [] <==> s == [])
    && (r != [] ==> (IsSpace(r[0]) <==> IsSpace(s[0])))
    && (r != [] ==> (IsSpace(r[|r| - 1]) <==> IsSpace(s[|s| - 1])))
    && SingleSpaced(r)
    && (AllKept(s) ==> AllClean(r))
  }

  /** `re.sub(r"\s+", " ", s)`: each maximal run of whitespace becomes one space. */
  function Collapse(s: string): (r: string)
    ensures Collapsed(s, r)
    decreases |s|
  {
    if s == [] then []
    else if IsSpace(s[0]) then
      var t := TrimStart(s);
      var rest := Collapse(t);
      CollapseRunStep(s, t, rest);
      " " + rest
    else
      var k := WordLen(s);
      var rest := Collapse(s[k..]);
      CollapseWordStep(s, k, rest);
      s[..k] + rest
  }

  lemma CollapseRunStep(s: string, t: string, rest: string)
    requires s != [] && IsSpace(s[0]) && t == TrimStart(s)
    requires Collapsed(t, rest)
    ensures Collapsed(s, " " + rest)
  {
    SpaceThenSingleSpaced(rest);
    RunChars(s, t, rest);
    BlankLast(s, t);
    RunLastChar(s, t, rest);
  }

  lemma RunChars(s: string, t: string, rest: string)
    requires |t| <= |s| && t == s[|s| - |t|..]
    requires AllKept(t) ==> AllClean(rest)
    ensures AllKept(s) ==> AllClean(" " + rest)
  {
    if AllKept(s) {
      KeptSuffix(s, |s| - |t|);
      CleanAppend(" ", rest);
    }
  }

  /** Every suffix of a string that survives the first substitution survives it too. */
  lemma KeptSuffix(s: string, n: int)
    requires AllKept(s) && 0 <= n <= |s|
    ensures AllKept(s[n..])
  {
    var t := s[n..];
    forall j | 0 <= j < |t| ensures KeepChar(t[j]) {
      assert t[j] == s[n + j];
    }
  }

  /** Every prefix of a string that survives the first substitution survives it too. */
  lemma KeptPrefix(s: string, n: int)
    requires AllKept(s) && 0 <= n <= |s|
    ensures AllKept(s[..n])
  {
    var t := s[..n];
    forall j | 0 <= j < |t| ensures KeepChar(t[j]) {
      assert t[j] == s[j];
    }
  }

  lemma CleanAppend(a: string, b: string)
    requires AllClean(a) && AllClean(b)
    ensures AllClean(a + b)
  {
    var r := a + b;
    forall i | 0 <= i < |r| ensures CleanChar(r[i]) {
      if i < |a| {
        assert r[i] == a[i];
      } else {
        assert r[i] == b[i - |a|];
      }
    }
  }

  lemma BlankLast(s: string, t: string)
    requires s != [] && t == TrimStart(s)
    ensures t == [] ==> IsSpace(s[|s| - 1])
  {
  }

  lemma RunLastChar(s: string, t: string, rest: string)
    requires s != [] && |t| <= |s| && t == s[|s| - |t|..]
    requires t == [] ==> IsSpace(s[|s| - 1])
    requires rest == [] <==> t == []
    requires rest != [] ==> (IsSpace(rest[|rest| - 1]) <==> IsSpace(t[|t| - 1]))
    ensures IsSpace((" " + rest)[|rest|]) <==> IsSpace(s[|s| - 1])
  {
    if rest != [] {
      assert t[|t| - 1] == s[|s| - 1];
      assert (" " + rest)[|rest|] == rest[|rest| - 1];
    }
  }

  /** A space put in front of a single-spaced string that starts with a non-space. */
  lemma SpaceThenSingleSpaced(rest: string)
    requires rest != [] ==> !IsSpace(rest[0])
    requires SingleSpaced(rest)
    ensures SingleSpaced(" " + rest)
  {
    var r := " " + rest;
    forall i | 0 <= i < |r| ensures IsSpace(r[i]) ==> r[i] == ' ' {
      if i > 0 {
        assert r[i] == rest[i - 1];
      }
    }
    forall i | 0 <= i < |r| - 1 ensures NoDoubleSpaceAt(r, i) {
      if i > 0 {
        assert NoDoubleSpaceAt(rest, i - 1);
      }
    }
  }

  lemma CollapseWordStep(s: string, k: nat, rest: string)
    requires s != [] && !IsSpace(s[0]) && k == WordLen(s)
    requires Collapsed(s[k..], rest)
    ensures Collapsed(s, s[..k] + rest)
  {
    assert k > 0;
    if rest != [] {
      assert s[k..][0] == s[k];
    }
    WordSpacing(s, k, rest);
    WordChars(s, k, rest);
    var r := s[..k] + rest;
    assert r[0] == s[0];
    if rest != [] {
      assert r[|r| - 1] == rest[|rest| - 1];
      assert s[k..][|s[k..]| - 1] == s[|s| - 1];
    } else {
      assert s[..k] == s;
    }
  }

  lemma WordSpacing(s: string, k: nat, rest: string)
    requires 0 < k <= |s| && NoSpace(s[..k])
    requires rest != [] ==> IsSpace(rest[0])
    requires SingleSpaced(rest)
    ensures SingleSpaced(s[..k] + rest)
  {
    var w := s[..k];
    var r := w + rest;
    forall i | 0 <= i < |r| ensures IsSpace(r[i]) ==> r[i] == ' ' {
      if i >= k {
        assert r[i] == rest[i - k];
      } else {
        assert r[i] == w[i];
      }
    }
    forall i | 0 <= i < |r| - 1 ensures NoDoubleSpaceAt(r, i) {
      if i >= k {
        assert r[i] == rest[i - k] && r[i + 1] == rest[i + 1 - k];
        assert NoDoubleSpaceAt(rest, i - k);
      } else {
        assert r[i] == w[i];
      }
    }
  }

  lemma WordChars(s: string, k: nat, rest: string)
    requires k <= |s| && NoSpace(s[..k])
    requires AllKept(s[k..]) ==> AllClean(rest)
    ensures AllKept(s) ==> AllClean(s[..k] + rest)
  {
    if AllKept(s) {
      KeptSuffix(s, k);
      KeptPrefix(s, k);
      WordClean(s[..k]);
      CleanAppend(s[..k], rest);
    }
  }

  /** Without whitespace, what survives the first substitution is clean. */
  lemma WordClean(w: string)
    requires AllKept(w) && NoSpace(w)
    ensures AllClean(w)
  {
    forall i | 0 <= i < |w| ensures CleanChar(w[i]) {
      assert KeepChar(w[i]) && !IsSpace(w[i]);
    }
  }

  /** The index of the last `c` in `s`, or -1: `str.rfind`. */
  function RFind(s: string, c: char): (i: int)
    ensures -1 <= i < |s|
    ensures i >= 0 ==> s[i] == c
    ensures forall j | i < j < |s| :: s[j] != c
    decreases |s|
  {
    if s == [] then -1
    else if s[|s| - 1] == c then |s| - 1
    else RFind(s[..|s| - 1], c)
  }

  /** The part of `p` after its last `/` has a character other than `.` before index `dot`. */
  predicate StemHasNonDot(p: string, sep: int, dot: int)
    requires -1 <= sep && dot <= |p|
  {
    exists i | sep + 1 <= i < dot :: p[i] != '.'
  }

  /** `os.path.splitext(p)` on POSIX: the extension runs from the last `.` of the last path
      component, unless only dots precede it in that component. */
  function SplitExt(p: string): (parts: (string, string))
    ensures parts.0 + parts.1 == p
    ensures parts.1 == [] || (parts.1[0] == '.' && '.' !in parts.1[1..] && '/' !in parts.1)
    ensures parts.1 != [] ==> parts.0 != []
  {
    var sep := RFind(p, '/');
    var dot := RFind(p, '.');
    if dot > sep && StemHasNonDot(p, sep, dot) then
      assert p[..dot] + p[dot..] == p;
      (p[..dot], p[dot..])
    else (p, [])
  }

  /** `s[:n]` for a non-negative `n`. */
  function Take(s: string, n: nat): (r: string)
    ensures |r| == if n < |s| then n else |s|
    ensures r == s[..|r|]
  {
    if n < |s| then s[..n] else s
  }

  /** The two substitutions and the final `.strip()`, before any shortening. */
  function Tidy(name: string): (t: string)
    ensures SingleSpaced(t)
    ensures t == [] || (!IsSpace(t[0]) && !IsSpace(t[|t| - 1]))
    ensures forall c | c in t :: CleanChar(c)
  {
    var f := Filter(name);
    var c := Collapse(f);
    var t := Strip(c);
    TidySpacing(c, t);
    StripClean(c);
    t
  }

  /** Stripping keeps a string made of clean characters clean. */
  lemma StripClean(c: string)
    requires AllClean(c)
    ensures forall x | x in Strip(c) :: CleanChar(x)
  {
    var t := Strip(c);
    forall x | x in t ensures CleanChar(x) {
      assert x in c;
      var j :| 0 <= j < |c| && c[j] == x;
    }
  }

  /** Stripping a single-spaced string leaves it single-spaced. */
  lemma TidySpacing(c: string, t: string)
    requires SingleSpaced(c) && t == Strip(c)
    ensures SingleSpaced(t)
  {
    var a := TrimStart(c);
    SliceSingleSpaced(c, |c| - |a|, |c|);
    assert a == c[|c| - |a|..|c|];
    SliceSingleSpaced(a, 0, |t|);
    assert a[0..|t|] == t;
  }

  /** Any slice of a single-spaced string is single-spaced. */
  lemma SliceSingleSpaced(c: string, lo: int, hi: int)
    requires SingleSpaced(c) && 0 <= lo <= hi <= |c|
    ensures SingleSpaced(c[lo..hi])
  {
    var t := c[lo..hi];
    forall i | 0 <= i < |t| ensures IsSpace(t[i]) ==> t[i] == ' ' {
      assert t[i] == c[lo + i];
    }
    forall i | 0 <= i < |t| - 1 ensures NoDoubleSpaceAt(t, i) {
      assert t[i] == c[lo + i] && t[i + 1] == c[lo + i + 1];
      assert NoDoubleSpaceAt(c, lo + i);
    }
  }

  /** `name[:90] + ext` with `name, ext = os.path.splitext(t)`: the extension is kept
      whole and the stem is cut to its first 90 characters. */
  function Shorten(t: string): (r: string)
    ensures var ext := SplitExt(t).1;
      && |r| == |ext| + (if StemKeep < |t| - |ext| then StemKeep else |t| - |ext|)
      && r[..|r| - |ext|] == t[..|r| - |ext|]
      && r[|r| - |ext|..] == ext
    ensures (forall c | c in t :: CleanChar(c)) ==> forall c | c in r :: CleanChar(c)
    ensures t != [] ==> r != []
  {
    var parts := SplitExt(t);
    var r := Take(parts.0, StemKeep) + parts.1;
    ShortenedChars(t, parts.0, parts.1);
    assert r[..|r| - |parts.1|] == Take(parts.0, StemKeep);
    r
  }

  /** `clean_filename`: keep word characters, whitespace, dots and hyphens; collapse
      whitespace runs; strip; shorten when longer than 100; fall back to "unnamed_file"
      when nothing is left. */
  function CleanFilename(name: string): (r: string)
    ensures r != []
    ensures forall c | c in r :: CleanChar(c)
    ensures Tidy(name) == [] ==> r == Placeholder
    ensures 0 < |Tidy(name)| <= MaxCleanLength ==> r == Tidy(name)
    ensures |Tidy(name)| > MaxCleanLength ==> r == Shorten(Tidy(name))
  {
    var t := Tidy(name);
    if |t| > MaxCleanLength then Shorten(t)
    else if t == [] then
      PlaceholderIsClean();
      Placeholder
    else t
  }

  lemma PlaceholderIsClean()
    ensures forall c | c in Placeholder :: CleanChar(c)
  {
    forall c | c in Placeholder ensures CleanChar(c) {
      var i :| 0 <= i < |Placeholder| && Placeholder[i] == c;
      assert IsWordChar(Placeholder[i]);
    }
  }

  /** The shortened name is made of characters of the tidied one. */
  lemma ShortenedChars(t: string, stem: string, ext: string)
    requires stem + ext == t
    ensures (forall c | c in t :: CleanChar(c)) ==> forall c | c in Take(stem, StemKeep) + ext :: CleanChar(c)
  {
    var head := Take(stem, StemKeep);
    forall c | c in head + ext ensures c in t {
      if c in head {
        var i :| 0 <= i < |head| && head[i] == c;
        assert t[i] == c;
      } else {
        var i :| 0 <= i < |ext| && ext[i] == c;
        assert t[|stem| + i] == c;
      }
    }
  }

  /** `os.path.join(a, b)` on POSIX for two components. */
  function PathJoin(a: string, b: string): (p: string)
    ensures b != [] && b[0] == '/' ==> p == b
    ensures (b == [] || b[0] != '/') && a != [] && a[|a| - 1] != '/' ==> p == a + "/" + b
  {
    if b != [] && b[0] == '/' then b
    else if a == [] || a[|a| - 1] == '/' then a + b
    else a + "/" + b
  }

  /** `ext.lower() in allowed_ext`. */
  predicate IsAllowedExtension(ext: string) {
    LowerStr(ext) in AllowedExtensions
  }

  /** f"{uid}_{clean_name}_{timestamp}{ext}". */
  function StoredName(userId: int, clean: string, timestamp: int, ext: string): string {
    IntToString(userId) + "_" + clean + "_" + IntToString(timestamp) + ext
  }

  /** `os.path.join(STORAGE_DIR, safe_filename)`. */
  function StoredPath(userId: int, clean: string, timestamp: int, ext: string): (p: string)
    ensures p == StorageDir + "/" + StoredName(userId, clean, timestamp, ext)
  {
    var n := StoredName(userId, clean, timestamp, ext);
    assert n[0] == IntToString(userId)[0];
    PathJoin(StorageDir, n)
  }
}
