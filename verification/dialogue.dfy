/**
  The bot's conversation steps (main.py) as pure transitions. Each `receive_*` handler
  takes the per-user `user_data`, the store and one incoming message, and gives the next
  step, the new `user_data`, the new store and the kind of reply sent. A `ValueError` or
  `OverflowError` that escapes a handler is the outcome `Crash`; the store is then as
  before.
  The Telegram user id, the clock and the set of files present on disk are parameters.
 */
module Dialogue {
  import opened Wrappers
  import opened Text
  import opened Numbers
  import opened Db
  import opened Filenames

  /** The conversation states; `End` is `ConversationHandler.END`. */
  datatype Step =
    | End
    | AwaitingName
    | AwaitingFile
    | AwaitingTags
    | AwaitingSearchQuery
    | AwaitingRatingInput
    | AwaitingFileIdForDownload

  /** The integer each state stands for: -1 for `END`, then the constants 0..5. */
  function StepCode(s: Step): (n: int)
    ensures -1 <= n <= 5
    ensures n == -1 <==> s == End
  {
    match s
    case End => -1
    case AwaitingName => 0
    case AwaitingFile => 1
    case AwaitingTags => 2
    case AwaitingSearchQuery => 3
    case AwaitingRatingInput => 4
    case AwaitingFileIdForDownload => 5
  }

  /** The six labels of the main keyboard. */
  const SetNameLabel := "📌 Указать имя"
  const ProfileLabel := "👤 Мой профиль"
  const UploadLabel := "📤 Загрузить файл"
  const DownloadLabel := "📥 Скачать файл"
  const SearchLabel := "🔍 Найти файл"
  const RateLabel := "⭐ Оценить файл"

  const MenuButtons: set<string> :=
    {SetNameLabel, ProfileLabel, UploadLabel, DownloadLabel, SearchLabel, RateLabel}

  /** The three `user_data` keys of an upload in progress; `None` is an absent key. */
  datatype UserData = UserData(uploadPath: Option<string>, originalName: Option<string>, uploaderId: Option<int>)

  /** `user_data` with none of the three keys. */
  const NoUpload := UserData(None, None, None)

  /** What the handlers read from outside: the sender's Telegram id, the clock in whole
      seconds, and the paths for which `os.path.isfile` holds. */
  datatype Env = Env(userId: int, now: int, blobs: set<string>)

  /** An attached document; its file name may be missing. */
  datatype Document = Document(fileName: Option<string>)

  /** An incoming message: text, or a document. */
  datatype Message = Text(text: string) | Attachment(doc: Document)

  /** The kinds of reply the handlers send. */
  datatype Reply =
    | MenuPressed                                          // a keyboard label instead of input
    | EmptyInput                                           // nothing but whitespace
    | NameSaved(name: string)
    | NotADocument
    | UnsupportedFormat
    | AskTags
    | UploadDataLost
    | Uploaded(fileId: int, name: string, tags: string)
    | NothingFound
    | Found(hits: seq<Hit>)
    | Rated(fileId: int, score: int)
    | BadRatingFormat
    | InvalidId
    | FileNotFound
    | Sent(path: string)
    | Prompt(form: Conv)                                   // the question of an `ask_for_*` entry point
    | ProfileShown                                         // `show_profile`
    | Ignored                                              // no handler takes the message

  datatype Outcome =
    | Next(step: Step, data: UserData, store: Store, reply: Reply)
    | Crash(fault: Fault)

  /** `text in MAIN_MENU_BUTTONS` after stripping. */
  predicate IsMenuLabel(input: string) {
    Strip(input) in MenuButtons
  }

  /** `receive_name`: refuse a keyboard label or a blank name and ask again; otherwise
      store the name for the sender. A sender id that is not positive, or beyond SQLite's
      range, makes `add_user` raise. */
  function ReceiveName(data: UserData, st: Store, env: Env, input: string): (o: Outcome)
    ensures o.Crash? <==> !IsMenuLabel(input) && !IsBlank(input) && (env.userId <= 0 || env.userId > MaxSqlInt)
    ensures o.Crash? ==> o.fault == (if env.userId <= 0 then BadUserId else TooLarge)
    ensures o.Next? ==> o.data == data
    ensures o.Next? && o.step == AwaitingName <==> IsMenuLabel(input) || IsBlank(input)
    ensures o.Next? && o.step == AwaitingName ==> o.store == st
    ensures o.Next? && o.step != AwaitingName ==>
      && o.step == End
      && o.reply == NameSaved(Strip(input))
      && o.store.users == st.users[env.userId := Strip(input)]
      && o.store.files == st.files && o.store.ratings == st.ratings && o.store.nextId == st.nextId
  {
    var text := Strip(input);
    StripIdempotent(input);
    if IsMenuLabel(input) then Next(AwaitingName, data, st, MenuPressed)
    else if text == [] then Next(AwaitingName, data, st, EmptyInput)
    else
      match AddUser(st, env.userId, text)
      case Err(f) => Crash(f)
      case Ok(s) => Next(End, data, s, NameSaved(text))
  }

  /** `document.file_name or "document"`. */
  function UploadName(doc: Document): (name: string)
    ensures name != []
  {
    if doc.fileName.None? || doc.fileName.value == [] then "document" else doc.fileName.value
  }

  /** `receive_file`: without a document, or with an extension outside the allow-list,
      stay and ask again; otherwise remember where the upload is stored, its cleaned name
      and the uploader, and ask for tags. The store is not touched. */
  function ReceiveFile(data: UserData, st: Store, env: Env, doc: Option<Document>): (o: Outcome)
    ensures o.Next? && o.store == st
    ensures o.step == AwaitingTags <==> doc.Some? && IsAllowedExtension(SplitExt(UploadName(doc.value)).1)
    ensures o.step != AwaitingTags ==> o.step == AwaitingFile && o.data == data
    ensures o.step == AwaitingTags ==>
      var name := UploadName(doc.value);
      var ext := SplitExt(name).1;
      && o.reply == AskTags
      && o.data == UserData(
           Some(StoredPath(env.userId, CleanFilename(name), env.now, ext)),
           Some(CleanFilename(name)),
           Some(env.userId))
  {
    if doc.None? then Next(AwaitingFile, data, st, NotADocument)
    else
      var name := UploadName(doc.value);
      var ext := SplitExt(name).1;
      if !IsAllowedExtension(ext) then Next(AwaitingFile, data, st, UnsupportedFormat)
      else
        var clean := CleanFilename(name);
        var path := StoredPath(env.userId, clean, env.now, ext);
        Next(AwaitingTags, UserData(Some(path), Some(clean), Some(env.userId)), st, AskTags)
  }

  /** `not file_path or not original_name or not user_id`: a key is absent or falsy. */
  predicate UploadMissing(data: UserData) {
    || data.uploadPath.None? || data.uploadPath.value == []
    || data.originalName.None? || data.originalName.value == []
    || data.uploaderId.None? || data.uploaderId.value == 0
  }

  /** `receive_tags`: refuse a keyboard label or blank tags and ask again; end when the
      upload data is missing; otherwise record the file and clear the upload data.
      The errors of `add_file` (an unknown, negative or too large uploader, a blank
      stored value) are not caught. */
  function ReceiveTags(data: UserData, st: Store, env: Env, input: string): (o: Outcome)
    ensures o.Next? && o.step == AwaitingTags <==> IsMenuLabel(input) || IsBlank(input)
    ensures o.Next? && o.step == AwaitingTags ==> o.store == st && o.data == data
    ensures o.Next? && o.reply == UploadDataLost <==>
      !IsMenuLabel(input) && !IsBlank(input) && UploadMissing(data)
    ensures o.Next? && o.reply == UploadDataLost ==> o.step == End && o.store == st && o.data == data
    ensures o.Crash? <==>
      && !IsMenuLabel(input) && !IsBlank(input) && !UploadMissing(data)
      && AddFile(st, data.uploaderId.value, data.uploadPath.value, Strip(input), data.originalName.value).Err?
    ensures o.Next? && o.reply.Uploaded? ==> !UploadMissing(data)
    ensures o.Next? && o.reply.Uploaded? && !UploadMissing(data) ==>
      var a := AddFile(st, data.uploaderId.value, data.uploadPath.value, Strip(input), data.originalName.value);
      && a.Ok? && o.store == a.value.store && o.reply.fileId == a.value.fileId
      && o.step == End && o.data == NoUpload
    ensures !IsMenuLabel(input) && !IsBlank(input) && !UploadMissing(data) ==>
      var a := AddFile(st, data.uploaderId.value, data.uploadPath.value, Strip(input), data.originalName.value);
      a.Ok? ==> o == Next(End, NoUpload, a.value.store, Uploaded(a.value.fileId, data.originalName.value, Strip(input)))
    ensures o.Next? ==> o.step == AwaitingTags || o.step == End
  {
    var tags := Strip(input);
    if IsMenuLabel(input) then Next(AwaitingTags, data, st, MenuPressed)
    else if tags == [] then Next(AwaitingTags, data, st, EmptyInput)
    else if UploadMissing(data) then Next(End, data, st, UploadDataLost)
    else
      var name := data.originalName.value;
      match AddFile(st, data.uploaderId.value, data.uploadPath.value, tags, name)
      case Err(f) => Crash(f)
      case Ok(a) => Next(End, NoUpload, a.store, Uploaded(a.fileId, name, tags))
  }

  /** `receive_search_query`: refuse a keyboard label or a blank query and ask again;
      otherwise report the hits of `search_files`, or that there are none. */
  function ReceiveSearchQuery(data: UserData, st: Store, env: Env, input: string): (o: Outcome)
    ensures o.Next? && o.store == st && o.data == data
    ensures o.step == AwaitingSearchQuery <==> IsMenuLabel(input) || IsBlank(input)
    ensures o.step != AwaitingSearchQuery ==> o.step == End && (o.reply.NothingFound? || o.reply.Found?)
    ensures o.reply.Found? ==> SearchFiles(st, Strip(input)) == Ok(o.reply.hits) && o.reply.hits != []
    ensures o.reply.NothingFound? ==> SearchFiles(st, Strip(input)) == Ok([])
  {
    var query := Strip(input);
    if IsMenuLabel(input) then Next(AwaitingSearchQuery, data, st, MenuPressed)
    else if query == [] then Next(AwaitingSearchQuery, data, st, EmptyInput)
    else
      match SearchFiles(st, query)
      case Err(f) => Crash(f)
      case Ok(hits) =>
        if hits == [] then Next(End, data, st, NothingFound) else Next(End, data, st, Found(hits))
  }

  /** The two numbers of a rating message: exactly two whitespace-separated tokens, both
      accepted by `int()`. */
  function RatingRequest(text: string): (r: Option<(int, int)>)
    ensures r.Some? ==> |Words(text)| == 2
    ensures r.Some? ==> ParseInt(Words(text)[0]) == Some(r.value.0) && ParseInt(Words(text)[1]) == Some(r.value.1)
    ensures r.None? ==> |Words(text)| != 2 || ParseInt(Words(text)[0]).None? || ParseInt(Words(text)[1]).None?
  {
    var parts := Words(text);
    if |parts| != 2 then None
    else
      match (ParseInt(parts[0]), ParseInt(parts[1]))
      case (Some(f), Some(s)) => Some((f, s))
      case _ => None
  }

  /** `receive_rating_input`: a keyboard label asks again; every other message ends the
      conversation, either with the score recorded or with the format-error reply, which
      also covers the `ValueError`s of `rate_file` (an unknown file among them). The
      `OverflowError` of an id beyond SQLite's range is not caught. */
  function ReceiveRatingInput(data: UserData, st: Store, env: Env, input: string): (o: Outcome)
    ensures o.Crash? <==>
      && !IsMenuLabel(input) && RatingRequest(Strip(input)).Some?
      && var req := RatingRequest(Strip(input)).value;
      && RateFile(st, req.0, env.userId, req.1) == Err(TooLarge)
    ensures o.Crash? ==> o.fault == TooLarge
    ensures o.Next? ==> o.data == data
    ensures o.Next? && o.step == AwaitingRatingInput <==> IsMenuLabel(input)
    ensures o.Next? && o.step != AwaitingRatingInput ==> o.step == End && (o.reply.Rated? || o.reply == BadRatingFormat)
    ensures o.Next? && !o.reply.Rated? ==> o.store == st
    ensures o.Next? && o.reply.Rated? ==>
      && RatingRequest(Strip(input)) == Some((o.reply.fileId, o.reply.score))
      && RateFile(st, o.reply.fileId, env.userId, o.reply.score) == Ok(o.store)
  {
    var text := Strip(input);
    if IsMenuLabel(input) then Next(AwaitingRatingInput, data, st, MenuPressed)
    else
      match RatingRequest(text)
      case None => Next(End, data, st, BadRatingFormat)
      case Some((fileId, score)) =>
        if !(MinScore <= score <= MaxScore) then Next(End, data, st, BadRatingFormat)
        else
          match RateFile(st, fileId, env.userId, score)
          case Err(TooLarge) => Crash(TooLarge)
          case Err(_) => Next(End, data, st, BadRatingFormat)
          case Ok(s) => Next(End, data, s, Rated(fileId, score))
  }

  /** `int(text)` when it is positive; `None` stands for the `ValueError` raised for a
      text that is not an integer or for an id that is not positive. */
  function DownloadId(text: string): (r: Option<int>)
    ensures r.Some? <==> ParseInt(text).Some? && ParseInt(text).value > 0
    ensures r.Some? ==> r.value == ParseInt(text).value
  {
    match ParseInt(text)
    case None => None
    case Some(fileId) => if fileId <= 0 then None else Some(fileId)
  }

  /** `receive_file_id_for_download`: a keyboard label asks again; otherwise the id must
      be a positive integer, and the file must be known and present on disk. A positive
      id beyond SQLite's range makes the lookup raise `OverflowError`, which the handler
      does not catch. */
  function ReceiveFileIdForDownload(data: UserData, st: Store, env: Env, input: string): (o: Outcome)
    ensures o.Crash? <==>
      !IsMenuLabel(input) && DownloadId(Strip(input)).Some? && DownloadId(Strip(input)).value > MaxSqlInt
    ensures o.Crash? ==> o.fault == TooLarge
    ensures o.Next? ==> o.store == st && o.data == data
    ensures o.Next? && o.step == AwaitingFileIdForDownload <==> IsMenuLabel(input)
    ensures o.Next? && o.step != AwaitingFileIdForDownload ==> o.step == End
    ensures !IsMenuLabel(input) ==> (o.Next? && o.reply == InvalidId <==> DownloadId(Strip(input)).None?)
    ensures o.Next? && o.reply.Sent? ==>
      && DownloadId(Strip(input)).Some?
      && var id := DownloadId(Strip(input)).value;
      && id in st.files && o.reply.path == st.files[id].path
      && o.reply.path != [] && o.reply.path in env.blobs
  {
    if IsMenuLabel(input) then Next(AwaitingFileIdForDownload, data, st, MenuPressed)
    else
      match DownloadId(Strip(input))
      case None => Next(End, data, st, InvalidId)
      case Some(fileId) =>
        match GetFilePathById(st, fileId)
        case Err(f) => Crash(f)
        case Ok(path) =>
          if path.None? || path.value == [] || path.value !in env.blobs then Next(End, data, st, FileNotFound)
          else Next(End, data, st, Sent(path.value))
  }

  /** The five conversations of `main()`, each a `ConversationHandler` with its own
      state per (chat, user) key. */
  datatype Conv = NameForm | UploadForm | SearchForm | RateForm | DownloadForm

  /** The order in which `main()` registers the conversations. */
  const Registered: seq<Conv> := [NameForm, UploadForm, SearchForm, RateForm, DownloadForm]

  /** The position of a conversation in the registration order. */
  function Index(c: Conv): (i: nat)
    ensures i < |Registered| && Registered[i] == c
  {
    match c
    case NameForm => 0
    case UploadForm => 1
    case SearchForm => 2
    case RateForm => 3
    case DownloadForm => 4
  }

  /** The keyboard label of a conversation's entry point. */
  function EntryLabel(c: Conv): string {
    match c
    case NameForm => SetNameLabel
    case UploadForm => UploadLabel
    case SearchForm => SearchLabel
    case RateForm => RateLabel
    case DownloadForm => DownloadLabel
  }

  /** The state the entry callback `ask_for_*` returns. */
  function EntryStep(c: Conv): Step {
    match c
    case NameForm => AwaitingName
    case UploadForm => AwaitingFile
    case SearchForm => AwaitingSearchQuery
    case RateForm => AwaitingRatingInput
    case DownloadForm => AwaitingFileIdForDownload
  }

  /** The states a conversation lists, and `End` for a user outside it. */
  predicate InForm(c: Conv, step: Step) {
    step == End ||
    match c
    case NameForm => step == AwaitingName
    case UploadForm => step == AwaitingFile || step == AwaitingTags
    case SearchForm => step == AwaitingSearchQuery
    case RateForm => step == AwaitingRatingInput
    case DownloadForm => step == AwaitingFileIdForDownload
  }

  /** `filters.Regex("^<button>$")` on the raw text: Python's `$` also matches just before
      a final newline. */
  predicate MatchesEntry(text: string, button: string) {
    text == button || text == button + "\n"
  }

  /** Each conversation's state for one (chat, user) key; `End` when the user is not in
      it in that chat. */
  datatype Session = Session(name: Step, upload: Step, search: Step, rate: Step, download: Step)
  {
    function StateOf(c: Conv): Step {
      match c
      case NameForm => name
      case UploadForm => upload
      case SearchForm => search
      case RateForm => rate
      case DownloadForm => download
    }

    function With(c: Conv, step: Step): (s: Session)
      ensures s.StateOf(c) == step
      ensures forall d | d != c :: s.StateOf(d) == StateOf(d)
    {
      match c
      case NameForm => this.(name := step)
      case UploadForm => this.(upload := step)
      case SearchForm => this.(search := step)
      case RateForm => this.(rate := step)
      case DownloadForm => this.(download := step)
    }
  }

  /** A user in no conversation. */
  const Idle := Session(End, End, End, End, End)

  /** Every conversation is outside or in one of its own states. */
  predicate SessionOk(s: Session) {
    forall c: Conv :: InForm(c, s.StateOf(c))
  }

  /** Whether a conversation in state `step` takes the message: outside it, only its
      entry label does; inside it, documents in `AWAITING_FILE` and text in the other
      states. The `/start` fallback takes only commands, which are not messages here. */
  predicate Takes(c: Conv, step: Step, msg: Message) {
    if step == End then msg.Text? && MatchesEntry(msg.text, EntryLabel(c))
    else msg.Attachment? <==> step == AwaitingFile
  }

  /** The callback the state lists for the message, if any. */
  function StateHandler(step: Step, data: UserData, st: Store, env: Env, msg: Message): (o: Option<Outcome>)
    ensures o.Some? <==> step != End && (msg.Attachment? <==> step == AwaitingFile)
  {
    match (step, msg)
    case (AwaitingName, Text(t)) => Some(ReceiveName(data, st, env, t))
    case (AwaitingFile, Attachment(d)) => Some(ReceiveFile(data, st, env, Some(d)))
    case (AwaitingTags, Text(t)) => Some(ReceiveTags(data, st, env, t))
    case (AwaitingSearchQuery, Text(t)) => Some(ReceiveSearchQuery(data, st, env, t))
    case (AwaitingRatingInput, Text(t)) => Some(ReceiveRatingInput(data, st, env, t))
    case (AwaitingFileIdForDownload, Text(t)) => Some(ReceiveFileIdForDownload(data, st, env, t))
    case _ => None
  }

  /** One conversation's `check_update` and callback: outside the conversation its entry
      point answers the label with the `ask_for_*` prompt and enters the waiting state;
      inside it, the state's callback runs. `None` when the conversation does not take
      the message. */
  function Converse(c: Conv, step: Step, data: UserData, st: Store, env: Env, msg: Message): (o: Option<Outcome>)
    ensures o.Some? <==> Takes(c, step, msg)
    ensures step == End && o.Some? ==> o.value == Next(EntryStep(c), data, st, Prompt(c))
  {
    if step == End then
      if msg.Text? && MatchesEntry(msg.text, EntryLabel(c)) then Some(Next(EntryStep(c), data, st, Prompt(c)))
      else None
    else StateHandler(step, data, st, env, msg)
  }

  /** The conversation's new state after its callback: `END` takes the user out of it.
      An escaped error leaves no new state. */
  function Lift(c: Conv, s: Session, o: Outcome): Result<Reaction, Fault> {
    match o
    case Crash(f) => Err(f)
    case Next(step, d, st, reply) => Ok(Reaction(s.With(c, step), d, st, reply))
  }

  /** What one message does: the new session, user data, store and reply. */
  datatype Reaction = Reaction(session: Session, data: UserData, store: Store, reply: Reply)

  /** The profile handler registered after the conversations, or nothing. */
  function Unclaimed(s: Session, data: UserData, st: Store, msg: Message): Reaction {
    Reaction(s, data, st, if msg.Text? && MatchesEntry(msg.text, ProfileLabel) then ProfileShown else Ignored)
  }

  /** The handlers from position `i` of the registration order on, tried in turn; the
      first that takes the message handles it. */
  function Route(i: nat, s: Session, data: UserData, st: Store, env: Env, msg: Message): Result<Reaction, Fault>
    requires i <= |Registered|
    decreases |Registered| - i
  {
    if i == |Registered| then Ok(Unclaimed(s, data, st, msg))
    else
      var c := Registered[i];
      match Converse(c, s.StateOf(c), data, st, env, msg)
      case None => Route(i + 1, s, data, st, env, msg)
      case Some(o) => Lift(c, s, o)
  }

  /** No conversation after position `i` takes the message. */
  predicate NoneFrom(i: nat, s: Session, msg: Message) {
    forall d: Conv | i <= Index(d) :: !Takes(d, s.StateOf(d), msg)
  }

  lemma {:induction false} RouteUnclaimed(i: nat, s: Session, data: UserData, st: Store, env: Env, msg: Message)
    requires i <= |Registered|
    ensures NoneFrom(i, s, msg) ==> Route(i, s, data, st, env, msg) == Ok(Unclaimed(s, data, st, msg))
    decreases |Registered| - i
  {
    if i < |Registered| && NoneFrom(i, s, msg) {
      assert Index(Registered[i]) == i by { IndexOfRegistered(i); }
      RouteUnclaimed(i + 1, s, data, st, env, msg);
    }
  }

  lemma IndexOfRegistered(i: nat)
    requires i < |Registered|
    ensures Index(Registered[i]) == i
  {
    if i == 0 {} else if i == 1 {} else if i == 2 {} else if i == 3 {} else {}
  }

  /** `Application.process_update` for one message. The handlers are tried in the order
      `main()` registers them: the `/start` command handler, which takes only commands,
      the five conversations, and the profile label. The first handler that takes the
      message handles it. A message none of them takes changes nothing. */
  function Handle(s: Session, data: UserData, st: Store, env: Env, msg: Message): (r: Result<Reaction, Fault>)
    ensures NoneFrom(0, s, msg) ==> r == Ok(Unclaimed(s, data, st, msg))
  {
    RouteUnclaimed(0, s, data, st, env, msg);
    Route(0, s, data, st, env, msg)
  }
}
