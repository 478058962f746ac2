/** Properties of the store operations: the `init_db` constraints are preserved, ids are
    fresh, lookups see what was stored, the tag-search rule, and the rating arithmetic. */
module DbLemmas {
  import opened Wrappers
  import opened Text
  import opened TextLemmas
  import opened Ordering
  import opened Db

  /** A stripped non-blank string is itself non-blank. */
  lemma StripNotBlank(s: string)
    requires !IsBlank(s)
    ensures !IsBlank(Strip(s))
  {
    var r := Strip(s);
    assert !IsSpace(r[0]);
  }

  // ---------------------------------------------------------------- users

  /** `add_user` keeps every constraint of the store. */
  lemma AddUserValid(st: Store, userId: int, name: string)
    requires Valid(st) && AddUser(st, userId, name).Ok?
    ensures Valid(AddUser(st, userId, name).value)
  {
    StripNotBlank(name);
  }

  /** INSERT OR REPLACE: the latest name wins, whatever was stored before. */
  lemma AddUserLatestWins(st: Store, userId: int, a: string, b: string)
    requires AddUser(st, userId, a).Ok?
    ensures AddUser(AddUser(st, userId, a).value, userId, b) == AddUser(st, userId, b)
  {
    if AddUser(st, userId, b).Ok? {
      Overwrite(st.users, userId, Strip(a), Strip(b));
    }
  }

  /** Writing a key twice leaves the second value. */
  lemma Overwrite<K, V>(m: map<K, V>, k: K, x: V, y: V)
    ensures m[k := x][k := y] == m[k := y]
  {
  }

  /** Registering the same name twice changes nothing the second time. */
  lemma AddUserIdempotent(st: Store, userId: int, name: string)
    requires AddUser(st, userId, name).Ok?
    ensures AddUser(AddUser(st, userId, name).value, userId, name) == AddUser(st, userId, name)
  {
    AddUserLatestWins(st, userId, name, name);
  }

  // ---------------------------------------------------------------- files

  /** `add_file` keeps every constraint of the store. */
  lemma AddFileValid(st: Store, userId: int, path: string, tags: string, name: string)
    requires Valid(st) && AddFile(st, userId, path, tags, name).Ok?
    ensures Valid(AddFile(st, userId, path, tags, name).value.store)
  {
    var a := AddFile(st, userId, path, tags, name).value;
    var s := a.store;
    StripNotBlank(path);
    StripNotBlank(tags);
    StripNotBlank(name);
    assert FileOk(s, s.files[a.fileId]);
    forall id | id in s.files ensures 0 < id < s.nextId && FileOk(s, s.files[id]) {
      if id != a.fileId {
        assert FileOk(st, st.files[id]);
      }
    }
  }

  /** AUTOINCREMENT: the new id is positive, unused, and above every id issued so far. */
  lemma AddFileFresh(st: Store, userId: int, path: string, tags: string, name: string)
    requires Valid(st) && AddFile(st, userId, path, tags, name).Ok?
    ensures var id := AddFile(st, userId, path, tags, name).value.fileId;
      id > 0 && id !in st.files && forall prev | prev in st.files :: prev < id
  {
  }

  /** Two successful uploads in a row get increasing ids. */
  lemma AddFileIncreasing(st: Store, u1: int, p1: string, t1: string, n1: string,
                                     u2: int, p2: string, t2: string, n2: string)
    requires AddFile(st, u1, p1, t1, n1).Ok?
    requires AddFile(AddFile(st, u1, p1, t1, n1).value.store, u2, p2, t2, n2).Ok?
    ensures AddFile(st, u1, p1, t1, n1).value.fileId
          < AddFile(AddFile(st, u1, p1, t1, n1).value.store, u2, p2, t2, n2).value.fileId
  {
  }

  /** The stored path is what the download lookup then returns. */
  lemma AddFileThenPath(st: Store, userId: int, path: string, tags: string, name: string)
    requires Valid(st) && st.nextId <= MaxSqlInt && AddFile(st, userId, path, tags, name).Ok?
    ensures var a := AddFile(st, userId, path, tags, name).value;
      GetFilePathById(a.store, a.fileId) == Ok(Some(Strip(path)))
  {
  }

  /** A new upload appears in its owner's listing, named and tagged as stored. */
  lemma AddFileThenListed(st: Store, userId: int, path: string, tags: string, name: string)
    requires Valid(st) && AddFile(st, userId, path, tags, name).Ok?
    ensures var a := AddFile(st, userId, path, tags, name).value;
      && GetUserFiles(a.store, userId).Ok?
      && exists l | l in GetUserFiles(a.store, userId).value ::
        l.fileId == a.fileId && l.name == Strip(name) && l.tags == Strip(tags)
  {
    var a := AddFile(st, userId, path, tags, name).value;
    var ids := OwnedIds(a.store, userId);
    var ls := GetUserFiles(a.store, userId).value;
    assert a.fileId in ids;
    var i :| 0 <= i < |ids| && ids[i] == a.fileId;
    assert ls[i] in ls;
  }

  /** Nobody else's listing changes when a file is uploaded. */
  lemma AddFileOtherListings(st: Store, userId: int, path: string, tags: string, name: string, other: int)
    requires Valid(st) && AddFile(st, userId, path, tags, name).Ok? && other != userId
    ensures OwnedIds(AddFile(st, userId, path, tags, name).value.store, other) == OwnedIds(st, other)
  {
    var s := AddFile(st, userId, path, tags, name).value.store;
    var xs := OwnedIds(s, other);
    var ys := OwnedIds(st, other);
    assert forall id :: id in xs <==> id in ys;
    IncreasingSameElements(xs, ys);
  }

  /** Two increasing sequences with the same elements are equal. */
  lemma {:induction false} IncreasingSameElements(xs: seq<int>, ys: seq<int>)
    requires Increasing(xs) && Increasing(ys)
    requires forall x :: x in xs <==> x in ys
    ensures xs == ys
    decreases |xs| + |ys|
  {
    if xs != [] {
      assert xs[0] in xs;
    }
    if ys != [] {
      assert ys[0] in ys;
    }
    if xs != [] && ys != [] {
      assert xs[0] == ys[0] by {
        assert xs[0] in xs && ys[0] in ys;
        var i :| 0 <= i < |ys| && ys[i] == xs[0];
        var j :| 0 <= j < |xs| && xs[j] == ys[0];
        assert ys[0] <= ys[i] && xs[0] <= xs[j];
      }
      forall x ensures x in xs[1..] <==> x in ys[1..] {
        if x in xs[1..] {
          var i :| 0 <= i < |xs[1..]| && xs[1..][i] == x;
          assert xs[i + 1] == x && x in xs && x != xs[0];
        }
        if x in ys[1..] {
          var i :| 0 <= i < |ys[1..]| && ys[1..][i] == x;
          assert ys[i + 1] == x && x in ys && x != ys[0];
        }
      }
      IncreasingSameElements(xs[1..], ys[1..]);
      assert xs == [xs[0]] + xs[1..] && ys == [ys[0]] + ys[1..];
    }
  }

  // ---------------------------------------------------------------- search

  /** Under the store constraints a file is found exactly when its tags match: the JOIN
      with users never drops a row. */
  lemma SearchFindsIff(st: Store, query: string, id: int)
    requires Valid(st) && !IsBlank(query)
    ensures (exists h | h in SearchFiles(st, query).value :: h.fileId == id)
        <==> id in st.files && TagsMatch(query, st.files[id].tags)
  {
    var hs := SearchFiles(st, query).value;
    var ids := SearchIds(st, query);
    if id in st.files && TagsMatch(query, st.files[id].tags) {
      assert id in ids;
      var i :| 0 <= i < |ids| && ids[i] == id;
      assert hs[i] in hs;
    }
  }

  /** Two sets meet exactly when some element lies in both. */
  lemma MeetWitness<T>(a: set<T>, b: set<T>)
    ensures a * b != {} <==> exists x :: x in a && x in b
  {
    if exists x :: x in a && x in b {
      var x :| x in a && x in b;
      assert x in a * b;
    } else {
      var none: set<T> := {};
      assert forall y :: y in a * b <==> y in none;
      assert a * b == none;
    }
  }

  /** A match has a witness: a word in both sets. */
  lemma TagsMatchWitness(query: string, tags: string)
    ensures TagsMatch(query, tags) <==> exists x :: x in QueryWords(query) && x in TagWords(tags)
  {
    MeetWitness(QueryWords(query), TagWords(tags));
  }

  /** The match rule written out: some whitespace word of the query equals, ignoring
      case, some stripped comma piece of the tags. */
  lemma TagsMatchIff(query: string, tags: string)
    ensures TagsMatch(query, tags) <==>
      exists w, p | w in Words(Strip(query)) && p in SplitOn(tags, ',') :: LowerStr(w) == LowerStr(Strip(p))
  {
    TagsMatchWitness(query, tags);
    if TagsMatch(query, tags) {
      MatchHasPair(query, tags);
    }
    if exists w, p | w in Words(Strip(query)) && p in SplitOn(tags, ',') :: LowerStr(w) == LowerStr(Strip(p)) {
      var w, p :| w in Words(Strip(query)) && p in SplitOn(tags, ',') && LowerStr(w) == LowerStr(Strip(p));
      PairMatches(query, tags, w, p);
    }
  }

  lemma MatchHasPair(query: string, tags: string)
    requires exists x :: x in QueryWords(query) && x in TagWords(tags)
    ensures exists w, p | w in Words(Strip(query)) && p in SplitOn(tags, ',') :: LowerStr(w) == LowerStr(Strip(p))
  {
    var x :| x in QueryWords(query) && x in TagWords(tags);
    var w :| w in Words(Strip(query)) && LowerStr(w) == x;
    var p :| p in SplitOn(tags, ',') && LowerStr(Strip(p)) == x;
  }

  lemma PairMatches(query: string, tags: string, w: string, p: string)
    requires w in Words(Strip(query)) && p in SplitOn(tags, ',') && LowerStr(w) == LowerStr(Strip(p))
    ensures TagsMatch(query, tags)
  {
    assert LowerStr(w) in QueryWords(query);
    assert LowerStr(Strip(p)) in TagWords(tags);
    MeetWitness(QueryWords(query), TagWords(tags));
  }

  /** Lower-casing never puts a comma where there was none. */
  lemma CommaOfLower(s: string)
    ensures ',' in LowerStr(s) <==> ',' in s
  {
    var l := LowerStr(s);
    if ',' in l {
      var i :| 0 <= i < |l| && l[i] == ',';
      LowerKeepsComma(s[i]);
    }
    if ',' in s {
      var i :| 0 <= i < |s| && s[i] == ',';
      assert l[i] == ',';
    }
  }

  /** Query words are split on whitespace only, so a word that carries a comma, like
      "матан," in "матан, лекция", can never equal a tag word. */
  lemma CommaWordNeverMatches(query: string, tags: string, w: string)
    requires w in Words(Strip(query)) && ',' in w
    ensures LowerStr(w) in QueryWords(query)
    ensures LowerStr(w) !in TagWords(tags)
  {
    CommaOfLower(w);
  }

  /** A query all of whose words carry a comma finds nothing. */
  lemma CommaQueryFindsNothing(query: string, tags: string)
    requires forall w | w in Words(Strip(query)) :: ',' in w
    ensures !TagsMatch(query, tags)
  {
    forall x | x in QueryWords(query) ensures x !in TagWords(tags) {
      var w :| w in Words(Strip(query)) && LowerStr(w) == x;
      CommaWordNeverMatches(query, tags, w);
    }
  }

  /** The lower-cased members of a list of words, as a set. */
  function LowerSet(ws: seq<string>): set<string> {
    set w | w in ws :: LowerStr(w)
  }

  /** The stripped, lower-cased members of a list of pieces, as a set. */
  function TagSet(ps: seq<string>): set<string> {
    set p | p in ps :: LowerStr(Strip(p))
  }

  lemma LowerSetAppend(xs: seq<string>, ys: seq<string>)
    ensures LowerSet(xs + ys) == LowerSet(xs) + LowerSet(ys)
  {
    forall x ensures x in LowerSet(xs + ys) <==> x in LowerSet(xs) + LowerSet(ys) {
      if x in LowerSet(xs + ys) {
        var w :| w in xs + ys && LowerStr(w) == x;
        assert w in xs || w in ys;
      }
      if x in LowerSet(xs) {
        var w :| w in xs && LowerStr(w) == x;
        assert w in xs + ys;
      }
      if x in LowerSet(ys) {
        var w :| w in ys && LowerStr(w) == x;
        assert w in xs + ys;
      }
    }
  }

  /** Lower-casing the words first does not change their lower-cased set. */
  lemma LowerSetOfLowerAll(ws: seq<string>)
    ensures LowerSet(LowerAll(ws)) == LowerSet(ws)
  {
    forall x ensures x in LowerSet(LowerAll(ws)) <==> x in LowerSet(ws) {
      if x in LowerSet(ws) {
        var w :| w in ws && LowerStr(w) == x;
        var i :| 0 <= i < |ws| && ws[i] == w;
        LowerIdempotent(w);
        assert LowerAll(ws)[i] in LowerAll(ws);
      }
      if x in LowerSet(LowerAll(ws)) {
        var v :| v in LowerAll(ws) && LowerStr(v) == x;
        var i :| 0 <= i < |ws| && LowerAll(ws)[i] == v;
        LowerIdempotent(ws[i]);
        assert ws[i] in ws;
      }
    }
  }

  /** Lower-casing the pieces first does not change their stripped, lower-cased set. */
  lemma TagSetOfLowerAll(ps: seq<string>)
    ensures TagSet(LowerAll(ps)) == TagSet(ps)
  {
    TagSetWithinLowerAll(ps);
    LowerAllTagsWithin(ps);
  }

  lemma TagSetWithinLowerAll(ps: seq<string>)
    ensures TagSet(ps) <= TagSet(LowerAll(ps))
  {
    forall x | x in TagSet(ps) ensures x in TagSet(LowerAll(ps)) {
      var p :| p in ps && LowerStr(Strip(p)) == x;
      var i :| 0 <= i < |ps| && ps[i] == p;
      TagOfLowerPiece(ps, i);
    }
  }

  lemma LowerAllTagsWithin(ps: seq<string>)
    ensures TagSet(LowerAll(ps)) <= TagSet(ps)
  {
    forall x | x in TagSet(LowerAll(ps)) ensures x in TagSet(ps) {
      var q :| q in LowerAll(ps) && LowerStr(Strip(q)) == x;
      var i := IndexOfLowered(ps, q);
      TagOfLowerPiece(ps, i);
    }
  }

  lemma IndexOfLowered(ps: seq<string>, q: string) returns (i: int)
    requires q in LowerAll(ps)
    ensures 0 <= i < |ps| && LowerAll(ps)[i] == q
  {
    i :| 0 <= i < |LowerAll(ps)| && LowerAll(ps)[i] == q;
  }

  /** A piece and its lower-cased copy give the same tag word. */
  lemma TagOfLowerPiece(ps: seq<string>, i: int)
    requires 0 <= i < |ps|
    ensures LowerStr(Strip(LowerAll(ps)[i])) == LowerStr(Strip(ps[i]))
    ensures LowerStr(Strip(ps[i])) in TagSet(ps)
    ensures LowerStr(Strip(LowerAll(ps)[i])) in TagSet(LowerAll(ps))
  {
    StripOfLower(ps[i]);
    LowerIdempotent(Strip(ps[i]));
    assert ps[i] in ps;
    assert LowerAll(ps)[i] in LowerAll(ps);
  }

  /** The whitespace words of "a b" are the words of `a` followed by those of `b`. */
  lemma WordsOfSpaced(a: string, b: string)
    ensures Words(Strip(a + " " + b)) == Words(Strip(a)) + Words(Strip(b))
  {
    WordsOfStrip(a + " " + b);
    WordsOfStrip(a);
    WordsOfStrip(b);
    Regroup(a, " ", b);
    WordsAppend(a, " " + b);
    WordsAfterSpace(b);
  }


  /** The query words of "a b" are those of `a` together with those of `b`. */
  lemma QueryWordsOfSpaced(a: string, b: string)
    ensures QueryWords(a + " " + b) == QueryWords(a) + QueryWords(b)
  {
    WordsOfSpaced(a, b);
    LowerSetAppend(Words(Strip(a)), Words(Strip(b)));
    QueryWordsAsSet(a + " " + b);
    QueryWordsAsSet(a);
    QueryWordsAsSet(b);
  }

  lemma QueryWordsAsSet(q: string)
    ensures QueryWords(q) == LowerSet(Words(Strip(q)))
  {
  }

  lemma TagWordsAsSet(tags: string)
    ensures TagWords(tags) == TagSet(SplitOn(tags, ','))
  {
  }

  /** Several query words are OR-ed: "a b" finds a file when `a` or `b` would. */
  lemma SearchIsDisjunctive(a: string, b: string, tags: string)
    ensures TagsMatch(a + " " + b, tags) <==> TagsMatch(a, tags) || TagsMatch(b, tags)
  {
    QueryWordsOfSpaced(a, b);
    TagsMatchWitness(a + " " + b, tags);
    TagsMatchWitness(a, tags);
    TagsMatchWitness(b, tags);
  }

  /** Lower-casing distributes over joining with a separator it leaves alone. */
  lemma {:induction false} LowerJoin(ps: seq<string>, c: char)
    requires Lower(c) == c
    ensures LowerStr(Join(ps, [c])) == Join(LowerAll(ps), [c])
    decreases |ps|
  {
    if |ps| > 1 {
      LowerJoin(ps[1..], c);
      assert LowerAll(ps)[1..] == LowerAll(ps[1..]);
      var rest := Join(ps[1..], [c]);
      assert LowerStr(ps[0] + [c] + rest) == LowerStr(ps[0]) + [c] + LowerStr(rest);
    }
  }

  /** `t.lower().split(",")` is the lower-cased pieces of `t.split(",")`. */
  lemma SplitOnLower(t: string)
    ensures SplitOn(LowerStr(t), ',') == LowerAll(SplitOn(t, ','))
  {
    var ps := SplitOn(t, ',');
    LowerJoin(ps, ',');
    forall i | 0 <= i < |LowerAll(ps)| ensures ',' !in LowerAll(ps)[i] {
      assert ps[i] in ps;
      CommaOfLower(ps[i]);
    }
    SplitOnJoin(LowerAll(ps), ',');
  }

  /** Upper- or lower-case in the query makes no difference. */
  lemma QueryWordsOfLower(query: string)
    ensures QueryWords(LowerStr(query)) == QueryWords(query)
  {
    StripOfLower(query);
    WordsOfLower(Strip(query));
    LowerSetOfLowerAll(Words(Strip(query)));
    QueryWordsAsSet(LowerStr(query));
    QueryWordsAsSet(query);
  }

  /** Upper- or lower-case in the tags makes no difference. */
  lemma TagWordsOfLower(tags: string)
    ensures TagWords(LowerStr(tags)) == TagWords(tags)
  {
    SplitOnLower(tags);
    TagSetOfLowerAll(SplitOn(tags, ','));
    TagWordsAsSet(LowerStr(tags));
    TagWordsAsSet(tags);
  }

  /** The search ignores case on both sides. */
  lemma SearchIgnoresCase(query: string, tags: string)
    ensures TagsMatch(LowerStr(query), tags) <==> TagsMatch(query, tags)
    ensures TagsMatch(query, LowerStr(tags)) <==> TagsMatch(query, tags)
  {
    QueryWordsOfLower(query);
    TagWordsOfLower(tags);
  }

  /** A single word is its own only query word. */
  lemma QueryWordsOfWord(w: string)
    requires w != [] && NoSpace(w)
    ensures LowerStr(w) in QueryWords(w)
  {
    assert Strip(w) == w;
    WordsOfWord(w);
    assert w in Words(Strip(w));
  }

  /** Every comma-free piece of a comma-joined list yields a tag word. */
  lemma PieceIsTagWord(ps: seq<string>, i: int)
    requires 0 <= i < |ps|
    requires forall j | 0 <= j < |ps| :: ',' !in ps[j]
    ensures LowerStr(Strip(ps[i])) in TagWords(Join(ps, ","))
  {
    SplitOnJoin(ps, ',');
    assert ps[i] in SplitOn(Join(ps, ","), ',');
  }

  /** A one-word query finds a comma-separated tag list when one of the tags, stripped
      of surrounding whitespace, is that word up to case. */
  lemma SingleWordFindsTag(w: string, ps: seq<string>, i: int)
    requires w != [] && NoSpace(w)
    requires 0 <= i < |ps| && LowerStr(Strip(ps[i])) == LowerStr(w)
    requires forall j | 0 <= j < |ps| :: ',' !in ps[j]
    ensures TagsMatch(w, Join(ps, ","))
  {
    QueryWordsOfWord(w);
    PieceIsTagWord(ps, i);
    TagsMatchWitness(w, Join(ps, ","));
  }
}
