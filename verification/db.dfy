/**
  The persistence rules of the bot's SQLite store (db.py) as pure operations on an
  in-memory state. Every public function of db.py becomes a function that returns a
  `Result`; `Err(fault)` stands for the exception the Python function raises, and the
  fault names which one it would be.
 */
module Db {
  import opened Wrappers
  import opened Text
  import opened Ordering

  /** The CHECK constraint on `ratings.rating`. */
  const MinScore := 1
  const MaxScore := 5

  /** The largest value of SQLite's 64-bit INTEGER. Binding a larger Python int as a
      query parameter raises `OverflowError`, which db.py does not catch. */
  const MaxSqlInt := 0x7FFF_FFFF_FFFF_FFFF

  /** A row of `files`, without its key. */
  datatype FileRec = FileRec(owner: int, path: string, tags: string, name: string)

  /** The three tables plus the AUTOINCREMENT counter of `files`.
      `ratings` is keyed by (file id, rater id), its composite primary key. */
  datatype Store = Store(
    users: map<int, string>,
    files: map<int, FileRec>,
    nextId: int,
    ratings: map<(int, int), int>)

  /** The distinct errors db.py lets escape: its `ValueError`s and the `OverflowError`
      of an id too large to bind. */
  datatype Fault =
    | BadUserId          // user_id is not a positive integer
    | BlankName          // name is empty or whitespace
    | BlankPath          // file_path is empty or whitespace
    | BlankTags          // tags is empty or whitespace
    | BlankOriginalName  // original_name is empty or whitespace
    | UnknownUser        // no users row for user_id
    | BlankQuery         // search query is empty or whitespace
    | BadFileId          // file_id is not a positive integer
    | BadScore           // rating outside 1..5
    | UnknownFile        // no files row for file_id
    | TooLarge           // OverflowError: an id above MaxSqlInt reaches a query

  /** What `add_file` returns: the new store and `cursor.lastrowid`. */
  datatype Added = Added(store: Store, fileId: int)

  /** One dictionary of the `search_files` result list. */
  datatype Hit = Hit(fileId: int, path: string, name: string, tags: string, author: string, rating: real)

  /** One dictionary of the `get_user_files` result list. */
  datatype Listing = Listing(fileId: int, name: string, tags: string, rating: real)

  /** The table constraints of `init_db` together with the guarantees the operations add:
      positive keys, user ids within SQLite's range, non-blank stored text, every file
      owned by a known user, every rating about a known file and within 1..5, and every
      file id below the counter. */
  predicate Valid(st: Store) {
    && st.nextId >= 1
    && (forall u | u in st.users :: 0 < u <= MaxSqlInt && !IsBlank(st.users[u]))
    && (forall id | id in st.files :: 0 < id < st.nextId && FileOk(st, st.files[id]))
    && (forall k | k in st.ratings :: k.0 in st.files && k.1 > 0 && MinScore <= st.ratings[k] <= MaxScore)
  }

  predicate FileOk(st: Store, f: FileRec) {
    f.owner in st.users && !IsBlank(f.path) && !IsBlank(f.tags) && !IsBlank(f.name)
  }

  /** `init_db` on a fresh database: three empty tables, counter at 1. */
  function Init(): (st: Store)
    ensures Valid(st)
    ensures st.users == map[] && st.files == map[] && st.ratings == map[]
  {
    Store(map[], map[], 1, map[])
  }

  /** `add_user`: validate, then INSERT OR REPLACE the stripped name. An id beyond
      SQLite's range raises when the insert binds it. */
  function AddUser(st: Store, userId: int, name: string): (r: Result<Store, Fault>)
    ensures r.Err? <==> userId <= 0 || IsBlank(name) || userId > MaxSqlInt
    ensures r.Err? ==> r.error == (if userId <= 0 then BadUserId else if IsBlank(name) then BlankName else TooLarge)
    ensures r.Ok? ==> userId in r.value.users && r.value.users[userId] == Strip(name)
    ensures r.Ok? ==> r.value.users - {userId} == st.users - {userId}
    ensures r.Ok? ==> r.value.files == st.files && r.value.ratings == st.ratings && r.value.nextId == st.nextId
  {
    if userId <= 0 then Err(BadUserId)
    else if IsBlank(name) then Err(BlankName)
    else if userId > MaxSqlInt then Err(TooLarge)
    else Ok(st.(users := st.users[userId := Strip(name)]))
  }

  /** `add_file`: validate the four arguments, require the owner to exist, then insert
      the stripped fields under the next AUTOINCREMENT id. An owner id beyond SQLite's
      range raises at the owner query. */
  function AddFile(st: Store, userId: int, path: string, tags: string, name: string): (r: Result<Added, Fault>)
    ensures r.Err? <==>
      userId <= 0 || IsBlank(path) || IsBlank(tags) || IsBlank(name) || userId > MaxSqlInt || userId !in st.users
    ensures r.Err? && r.error == UnknownUser <==>
      0 < userId <= MaxSqlInt && !IsBlank(path) && !IsBlank(tags) && !IsBlank(name) && userId !in st.users
    ensures r.Err? && r.error == TooLarge <==>
      userId > MaxSqlInt && !IsBlank(path) && !IsBlank(tags) && !IsBlank(name)
    ensures r.Ok? ==> r.value.fileId == st.nextId && r.value.store.nextId == st.nextId + 1
    ensures r.Ok? ==>
      r.value.store.files == st.files[r.value.fileId := FileRec(userId, Strip(path), Strip(tags), Strip(name))]
    ensures r.Ok? ==> r.value.store.users == st.users && r.value.store.ratings == st.ratings
  {
    if userId <= 0 then Err(BadUserId)
    else if IsBlank(path) then Err(BlankPath)
    else if IsBlank(tags) then Err(BlankTags)
    else if IsBlank(name) then Err(BlankOriginalName)
    else if userId > MaxSqlInt then Err(TooLarge)
    else if userId !in st.users then Err(UnknownUser)
    else
      var id := st.nextId;
      var rec := FileRec(userId, Strip(path), Strip(tags), Strip(name));
      Ok(Added(st.(files := st.files[id := rec], nextId := id + 1), id))
  }

  /** `set(word.lower() for word in query.strip().split())`. */
  function QueryWords(query: string): (ws: set<string>)
    ensures forall w | w in ws :: w != [] && NoSpace(w)
  {
    var words := Words(Strip(query));
    assert forall w | w in words :: LowerStr(w) != [] && NoSpace(LowerStr(w)) by {
      forall w | w in words ensures LowerStr(w) != [] && NoSpace(LowerStr(w)) {
        LowerWordIsWord(w);
      }
    }
    set w | w in words :: LowerStr(w)
  }

  /** `set(word.strip().lower() for word in tags.split(","))`. */
  function TagWords(tags: string): (ws: set<string>)
    ensures forall w | w in ws :: ',' !in w
  {
    var ps := SplitOn(tags, ',');
    assert forall p | p in ps :: ',' !in LowerStr(Strip(p)) by {
      forall p | p in ps ensures ',' !in LowerStr(Strip(p)) {
        TagNoComma(p);
      }
    }
    set p | p in ps :: LowerStr(Strip(p))
  }

  /** A piece without a comma keeps none after stripping and lower-casing. */
  lemma TagNoComma(p: string)
    requires ',' !in p
    ensures ',' !in LowerStr(Strip(p))
  {
    var t := Strip(p);
    assert ',' !in t;
    var l := LowerStr(t);
    forall i | 0 <= i < |l| ensures l[i] != ',' {
      assert t[i] != ',';
      LowerOfComma(t[i]);
    }
  }

  lemma LowerOfComma(c: char)
    requires c != ','
    ensures Lower(c) != ','
  {
  }

  /** `query_words & tag_words` is non-empty. */
  predicate TagsMatch(query: string, tags: string) {
    QueryWords(query) * TagWords(tags) != {}
  }

  /** A row of the `files JOIN users` scan that the search keeps. */
  predicate Selected(st: Store, query: string, id: int) {
    id in st.files && st.files[id].owner in st.users && TagsMatch(query, st.files[id].tags)
  }

  /** The ids of the search hits, in scan order. */
  function SearchIds(st: Store, query: string): (ids: seq<int>)
    ensures Increasing(ids)
    ensures forall id :: id in ids <==> Selected(st, query, id)
  {
    Select(SortedKeys(st.files.Keys), id => Selected(st, query, id))
  }

  function HitFor(st: Store, id: int): Hit
    requires id in st.files && st.files[id].owner in st.users
  {
    var f := st.files[id];
    Hit(id, f.path, f.name, f.tags, st.users[f.owner], AverageRating(st, id))
  }

  /** `search_files`: refuse a blank query; otherwise every file whose tag words share a
      word with the query words, with its author's current name and its average rating. */
  function SearchFiles(st: Store, query: string): (r: Result<seq<Hit>, Fault>)
    ensures r.Err? <==> IsBlank(query)
    ensures r.Err? ==> r.error == BlankQuery
    ensures r.Ok? ==> |r.value| == |SearchIds(st, query)|
    ensures r.Ok? ==> forall i | 0 <= i < |r.value| :: r.value[i].fileId == SearchIds(st, query)[i]
    ensures r.Ok? ==> forall h | h in r.value ::
      && Selected(st, query, h.fileId)
      && var f := st.files[h.fileId];
      && h.path == f.path && h.name == f.name && h.tags == f.tags
      && h.author == st.users[f.owner]
      && h.rating == AverageRating(st, h.fileId)
  {
    if IsBlank(query) then Err(BlankQuery)
    else
      var ids := SearchIds(st, query);
      Ok(seq(|ids|, i requires 0 <= i < |ids| => HitFor(st, ids[i])))
  }

  /** `get_file_path_by_id`: None for a non-positive or unknown id, otherwise the stored
      path. A positive id beyond SQLite's range makes the query raise. */
  function GetFilePathById(st: Store, fileId: int): (r: Result<Option<string>, Fault>)
    ensures r.Err? <==> fileId > MaxSqlInt
    ensures r.Err? ==> r.error == TooLarge
    ensures r.Ok? ==> (r.value.Some? <==> fileId > 0 && fileId in st.files)
    ensures r.Ok? && r.value.Some? ==> r.value.value == st.files[fileId].path
  {
    if fileId <= 0 then Ok(None)
    else if fileId > MaxSqlInt then Err(TooLarge)
    else if fileId in st.files then Ok(Some(st.files[fileId].path))
    else Ok(None)
  }

  /** The ids `get_user_files` reports, in scan order. */
  function OwnedIds(st: Store, userId: int): (ids: seq<int>)
    ensures Increasing(ids)
    ensures forall id :: id in ids <==> id in st.files && st.files[id].owner == userId
  {
    Select(SortedKeys(st.files.Keys), id => id in st.files && st.files[id].owner == userId)
  }

  /** `get_user_files`: [] for a non-positive id, otherwise exactly the files the user
      owns. An id beyond SQLite's range raises when the query binds it. */
  function GetUserFiles(st: Store, userId: int): (r: Result<seq<Listing>, Fault>)
    ensures r.Err? <==> userId > MaxSqlInt
    ensures r.Err? ==> r.error == TooLarge
    ensures r.Ok? && userId <= 0 ==> r.value == []
    ensures r.Ok? && userId > 0 ==> |r.value| == |OwnedIds(st, userId)|
    ensures r.Ok? && userId > 0 ==> forall i | 0 <= i < |r.value| :: r.value[i].fileId == OwnedIds(st, userId)[i]
    ensures r.Ok? ==> forall l | l in r.value ::
      && l.fileId in st.files && st.files[l.fileId].owner == userId
      && l.name == st.files[l.fileId].name && l.tags == st.files[l.fileId].tags
      && l.rating == AverageRating(st, l.fileId)
  {
    if userId <= 0 then Ok([])
    else if userId > MaxSqlInt then Err(TooLarge)
    else
      var ids := OwnedIds(st, userId);
      Ok(seq(|ids|, i requires 0 <= i < |ids| =>
        var f := st.files[ids[i]];
        Listing(ids[i], f.name, f.tags, AverageRating(st, ids[i]))))
  }

  /** `rate_file`: validate, require the file to exist, then upsert the score for
      (file, rater). The rater is not required to be a registered user. The existence
      query binds the file id and the upsert binds the rater id, so an id beyond
      SQLite's range raises at the query that first binds it. */
  function RateFile(st: Store, fileId: int, userId: int, score: int): (r: Result<Store, Fault>)
    ensures r.Err? <==>
      || fileId <= 0 || userId <= 0 || !(MinScore <= score <= MaxScore)
      || fileId > MaxSqlInt || fileId !in st.files || userId > MaxSqlInt
    ensures r.Err? && r.error == TooLarge <==>
      && fileId > 0 && userId > 0 && MinScore <= score <= MaxScore
      && (fileId > MaxSqlInt || (fileId in st.files && userId > MaxSqlInt))
    ensures r.Err? && r.error == UnknownFile <==>
      fileId > 0 && userId > 0 && MinScore <= score <= MaxScore && fileId <= MaxSqlInt && fileId !in st.files
    ensures r.Ok? ==> r.value.ratings == st.ratings[(fileId, userId) := score]
    ensures r.Ok? ==> r.value.users == st.users && r.value.files == st.files && r.value.nextId == st.nextId
  {
    if fileId <= 0 then Err(BadFileId)
    else if userId <= 0 then Err(BadUserId)
    else if !(MinScore <= score <= MaxScore) then Err(BadScore)
    else if fileId > MaxSqlInt then Err(TooLarge)
    else if fileId !in st.files then Err(UnknownFile)
    else if userId > MaxSqlInt then Err(TooLarge)
    else Ok(st.(ratings := st.ratings[(fileId, userId) := score]))
  }

  /** The raters who have a score for `fileId`. */
  function RatersOf(ratings: map<(int, int), int>, fileId: int): (us: set<int>)
    ensures forall u :: u in us <==> (fileId, u) in ratings
  {
    set k | k in ratings && k.0 == fileId :: k.1
  }

  /** The score `u` gave `fileId`, or 0 when there is none. */
  function ScoreOf(ratings: map<(int, int), int>, fileId: int, u: int): int {
    if (fileId, u) in ratings then ratings[(fileId, u)] else 0
  }

  /** The sum of the scores the raters in `us` gave `fileId`. */
  function SumScores(ratings: map<(int, int), int>, fileId: int, us: set<int>): int
    decreases us
  {
    if us == {} then 0
    else
      var u := MinOf(us);
      ScoreOf(ratings, fileId, u) + SumScores(ratings, fileId, us - {u})
  }

  /** SUM(rating) over the file's rows. */
  function TotalScore(st: Store, fileId: int): int {
    SumScores(st.ratings, fileId, RatersOf(st.ratings, fileId))
  }

  /** COUNT(*) over the file's rows. */
  function ScoreCount(st: Store, fileId: int): nat {
    |RatersOf(st.ratings, fileId)|
  }

  /** AVG(rating) as an exact rational, or 0 when the file has no ratings. */
  function AverageRating(st: Store, fileId: int): (avg: real)
    ensures ScoreCount(st, fileId) == 0 ==> avg == 0.0
    ensures ScoreCount(st, fileId) > 0 ==> avg * ScoreCount(st, fileId) as real == TotalScore(st, fileId) as real
  {
    var n := ScoreCount(st, fileId);
    if n == 0 then 0.0 else TotalScore(st, fileId) as real / n as real
  }

  /** `get_file_rating`: refuse a non-positive id, otherwise the average score. A
      positive id beyond SQLite's range makes the query raise. */
  function GetFileRating(st: Store, fileId: int): (r: Result<real, Fault>)
    ensures r.Err? <==> fileId <= 0 || fileId > MaxSqlInt
    ensures r.Err? ==> r.error == (if fileId <= 0 then BadFileId else TooLarge)
    ensures r.Ok? ==> r.value == AverageRating(st, fileId)
  {
    if fileId <= 0 then Err(BadFileId)
    else if fileId > MaxSqlInt then Err(TooLarge)
    else Ok(AverageRating(st, fileId))
  }
}
