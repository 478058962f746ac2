/** What the conversation steps guarantee across all inputs: keyboard labels and blank
    input, the exact set of accepted rating messages, the upload from document to stored
    row, the download of what was stored, and that no step breaks the store's constraints. */
module DialogueLemmas {
  import opened Wrappers
  import opened Text
  import opened TextLemmas
  import opened Numbers
  import opened Db
  import opened DbLemmas
  import opened RatingLemmas
  import opened Filenames
  import opened FilenameLemmas
  import opened Dialogue

  /** The state constants are pairwise distinct. */
  lemma StepCodeInjective(a: Step, b: Step)
    ensures StepCode(a) == StepCode(b) <==> a == b
  {
  }

  /** Every keyboard label starts with a character that is neither whitespace, a digit
      nor a minus sign. */
  lemma LabelsStartWithSymbols(button: string)
    requires button in MenuButtons
    ensures button != [] && !IsSpace(button[0]) && !IsDigit(button[0]) && button[0] != '-'
  {
    assert SetNameLabel[0] == '📌' && ProfileLabel[0] == '👤' && UploadLabel[0] == '📤';
    assert DownloadLabel[0] == '📥' && SearchLabel[0] == '🔍' && RateLabel[0] == '⭐';
  }

  /** A blank message is not a keyboard label. */
  lemma BlankIsNoLabel(input: string)
    requires IsBlank(input)
    ensures !IsMenuLabel(input)
  {
    if IsMenuLabel(input) {
      LabelsStartWithSymbols(Strip(input));
    }
  }

  /** A form's keyboard label, as the entry point's regular expression accepts it,
      starts with the label's first character. */
  lemma EntryStartsLikeLabel(t: string, c: Conv)
    requires MatchesEntry(t, EntryLabel(c))
    ensures t != [] && t[0] == EntryLabel(c)[0]
  {
    assert EntryLabel(c)[0] == (EntryLabel(c) + "\n")[0];
  }

  /** Two forms' entry points never accept the same text. */
  lemma EntriesDisjoint(t: string, c: Conv, d: Conv)
    requires MatchesEntry(t, EntryLabel(c)) && MatchesEntry(t, EntryLabel(d))
    ensures c == d
  {
    EntryStartsLikeLabel(t, c);
    EntryStartsLikeLabel(t, d);
    assert SetNameLabel[0] == '📌' && UploadLabel[0] == '📤' && SearchLabel[0] == '🔍';
    assert RateLabel[0] == '⭐' && DownloadLabel[0] == '📥';
  }

  /** No conversation registered before `c` takes the message. */
  predicate NoneBefore(c: Conv, s: Session, msg: Message) {
    forall d: Conv | Index(d) < Index(c) :: !Takes(d, s.StateOf(d), msg)
  }

  /** The first conversation, in registration order, that takes the message handles it,
      and only its own state changes. */
  lemma HandleByFirstTaker(c: Conv, s: Session, data: UserData, st: Store, env: Env, msg: Message)
    requires Takes(c, s.StateOf(c), msg) && NoneBefore(c, s, msg)
    ensures Handle(s, data, st, env, msg) == Lift(c, s, Converse(c, s.StateOf(c), data, st, env, msg).value)
  {
    RouteFirst(0, c, s, data, st, env, msg);
  }

  lemma {:induction false} RouteFirst(i: nat, c: Conv, s: Session, data: UserData, st: Store, env: Env, msg: Message)
    requires i <= Index(c) && Takes(c, s.StateOf(c), msg)
    requires forall d: Conv | i <= Index(d) < Index(c) :: !Takes(d, s.StateOf(d), msg)
    ensures Route(i, s, data, st, env, msg) == Lift(c, s, Converse(c, s.StateOf(c), data, st, env, msg).value)
    decreases Index(c) - i
  {
    if i < Index(c) {
      IndexOfRegistered(i);
      RouteFirst(i + 1, c, s, data, st, env, msg);
    }
  }

  /** The conversation that handles a message some conversation takes. */
  lemma FirstTaker(s: Session, msg: Message) returns (c: Conv)
    requires !NoneFrom(0, s, msg)
    ensures Takes(c, s.StateOf(c), msg) && NoneBefore(c, s, msg)
  {
    if Takes(NameForm, s.name, msg) {
      c := NameForm;
    } else if Takes(UploadForm, s.upload, msg) {
      c := UploadForm;
    } else if Takes(SearchForm, s.search, msg) {
      c := SearchForm;
    } else if Takes(RateForm, s.rate, msg) {
      c := RateForm;
    } else {
      c := DownloadForm;
    }
  }

  /** A form's label starts that form when the user is outside it and every
      conversation registered before it is idle or waits for a document: the entry
      point's prompt is sent, the form enters its waiting state, and nothing else
      changes. */
  lemma LabelStartsForm(c: Conv, s: Session, data: UserData, st: Store, env: Env, t: string)
    requires s.StateOf(c) == End && MatchesEntry(t, EntryLabel(c))
    requires forall d: Conv | Index(d) < Index(c) :: s.StateOf(d) == End || s.StateOf(d) == AwaitingFile
    ensures Handle(s, data, st, env, Text(t)) == Ok(Reaction(s.With(c, EntryStep(c)), data, st, Prompt(c)))
  {
    forall d: Conv | Index(d) < Index(c) ensures !Takes(d, s.StateOf(d), Text(t)) {
      if Takes(d, s.StateOf(d), Text(t)) {
        EntriesDisjoint(t, c, d);
      }
    }
    HandleByFirstTaker(c, s, data, st, env, Text(t));
  }

  /** Outside every conversation, a form's label starts that form. */
  lemma IdleLabelStartsForm(c: Conv, data: UserData, st: Store, env: Env)
    ensures Handle(Idle, data, st, env, Text(EntryLabel(c))) ==
      Ok(Reaction(Idle.With(c, EntryStep(c)), data, st, Prompt(c)))
  {
    LabelStartsForm(c, Idle, data, st, env, EntryLabel(c));
  }

  /** The name form's label starts the name form while an upload waits for its document;
      the upload stays pending. */
  lemma NameLabelDuringUpload(s: Session, data: UserData, st: Store, env: Env)
    requires s.name == End && s.upload == AwaitingFile
    ensures Handle(s, data, st, env, Text(SetNameLabel)) ==
      Ok(Reaction(s.(name := AwaitingName), data, st, Prompt(NameForm)))
  {
    LabelStartsForm(NameForm, s, data, st, env, SetNameLabel);
  }

  /** A search waiting for its query does not see the upload label: the upload form,
      registered earlier, takes it and starts, and the search stays pending. */
  lemma UploadLabelDuringSearch(s: Session, data: UserData, st: Store, env: Env)
    requires s.name == End && s.upload == End && s.search == AwaitingSearchQuery
    ensures Handle(s, data, st, env, Text(UploadLabel)) ==
      Ok(Reaction(s.(upload := AwaitingFile), data, st, Prompt(UploadForm)))
  {
    LabelStartsForm(UploadForm, s, data, st, env, UploadLabel);
  }

  lemma WithSame(s: Session, c: Conv)
    ensures s.With(c, s.StateOf(c)) == s
  {
  }

  /** A keyboard label sent to a form that waits for text is refused and changes
      nothing, provided no conversation registered before that form takes it. */
  lemma MenuLabelKeepsStep(c: Conv, s: Session, data: UserData, st: Store, env: Env, t: string)
    requires IsMenuLabel(t) && s.StateOf(c) != End && s.StateOf(c) != AwaitingFile
    requires NoneBefore(c, s, Text(t))
    ensures Handle(s, data, st, env, Text(t)) == Ok(Reaction(s, data, st, MenuPressed))
  {
    HandleByFirstTaker(c, s, data, st, env, Text(t));
    WithSame(s, c);
  }

  /** A document goes to the upload form when it waits for one and is dropped otherwise. */
  lemma DocumentRouting(s: Session, data: UserData, st: Store, env: Env, d: Document)
    requires SessionOk(s)
    ensures s.upload == AwaitingFile ==>
      Handle(s, data, st, env, Attachment(d)) == Lift(UploadForm, s, ReceiveFile(data, st, env, Some(d)))
    ensures s.upload != AwaitingFile ==>
      Handle(s, data, st, env, Attachment(d)) == Ok(Reaction(s, data, st, Ignored))
  {
    assert InForm(NameForm, s.StateOf(NameForm));
    if s.upload == AwaitingFile {
      HandleByFirstTaker(UploadForm, s, data, st, env, Attachment(d));
    } else {
      forall c: Conv ensures !Takes(c, s.StateOf(c), Attachment(d)) {
        assert InForm(c, s.StateOf(c));
      }
    }
  }

  /** Blank text makes the name, tags and search steps ask again. */
  lemma BlankInputAsksAgain(data: UserData, st: Store, env: Env, t: string)
    requires IsBlank(t)
    ensures ReceiveName(data, st, env, t) == Next(AwaitingName, data, st, EmptyInput)
    ensures ReceiveTags(data, st, env, t) == Next(AwaitingTags, data, st, EmptyInput)
    ensures ReceiveSearchQuery(data, st, env, t) == Next(AwaitingSearchQuery, data, st, EmptyInput)
  {
    BlankIsNoLabel(t);
  }

  /** Blank text ends the rating and download steps with their error replies. */
  lemma BlankInputEnds(data: UserData, st: Store, env: Env, t: string)
    requires IsBlank(t)
    ensures ReceiveRatingInput(data, st, env, t) == Next(End, data, st, BadRatingFormat)
    ensures ReceiveFileIdForDownload(data, st, env, t) == Next(End, data, st, InvalidId)
  {
    BlankRatingEnds(data, st, env, t);
    BlankDownloadEnds(data, st, env, t);
  }

  lemma BlankRatingEnds(data: UserData, st: Store, env: Env, t: string)
    requires IsBlank(t)
    ensures ReceiveRatingInput(data, st, env, t) == Next(End, data, st, BadRatingFormat)
  {
    BlankIsNoLabel(t);
    var e := Strip(t);
    assert e == [];
    assert RatingRequest(e) == None by {
      WordsOfBlank(e);
    }
  }

  lemma BlankDownloadEnds(data: UserData, st: Store, env: Env, t: string)
    requires IsBlank(t)
    ensures ReceiveFileIdForDownload(data, st, env, t) == Next(End, data, st, InvalidId)
  {
    BlankIsNoLabel(t);
    var e := Strip(t);
    assert e == [];
    assert DownloadId(e) == None;
  }

  /** The rating message the bot accepts, stated without the handler: two tokens that
      parse as integers, a file id that is in the store, a sender id, both within
      SQLite's positive range, and a score within 1..5. */
  predicate AcceptedRating(st: Store, userId: int, input: string) {
    var ws := Words(input);
    && !IsMenuLabel(input)
    && |ws| == 2
    && ParseInt(ws[0]).Some? && ParseInt(ws[1]).Some?
    && var fileId, score := ParseInt(ws[0]).value, ParseInt(ws[1]).value;
    && 0 < fileId <= MaxSqlInt && fileId in st.files && 0 < userId <= MaxSqlInt
    && MinScore <= score <= MaxScore
  }

  /** The rating message whose ids pass every check of `rate_file` but one of them does
      not fit SQLite's INTEGER when it is bound: the file id at the existence query, or
      the sender id at the upsert once the file is known. */
  predicate RatingOverflows(st: Store, userId: int, input: string) {
    var ws := Words(input);
    && !IsMenuLabel(input)
    && |ws| == 2
    && ParseInt(ws[0]).Some? && ParseInt(ws[1]).Some?
    && var fileId, score := ParseInt(ws[0]).value, ParseInt(ws[1]).value;
    && fileId > 0 && userId > 0 && MinScore <= score <= MaxScore
    && (fileId > MaxSqlInt || (fileId in st.files && userId > MaxSqlInt))
  }

  /** The score is recorded exactly for an accepted rating message, the handler raises
      exactly for an overflowing one, and every other non-label message gets the
      format-error reply and leaves the store as it was. */
  lemma RatingAcceptedIff(data: UserData, st: Store, env: Env, input: string)
    ensures var o := ReceiveRatingInput(data, st, env, input);
      o.Next? && o.reply.Rated? <==> AcceptedRating(st, env.userId, input)
    ensures ReceiveRatingInput(data, st, env, input).Crash? <==> RatingOverflows(st, env.userId, input)
    ensures RatingOverflows(st, env.userId, input) ==> ReceiveRatingInput(data, st, env, input) == Crash(TooLarge)
    ensures !IsMenuLabel(input) && !AcceptedRating(st, env.userId, input) && !RatingOverflows(st, env.userId, input) ==>
      ReceiveRatingInput(data, st, env, input) == Next(End, data, st, BadRatingFormat)
    ensures AcceptedRating(st, env.userId, input) ==>
      var ws := Words(input);
      var fileId, score := ParseInt(ws[0]).value, ParseInt(ws[1]).value;
      ReceiveRatingInput(data, st, env, input) ==
        Next(End, data, RateFile(st, fileId, env.userId, score).value, Rated(fileId, score))
  {
    if IsMenuLabel(input) {
      assert ReceiveRatingInput(data, st, env, input).reply == MenuPressed;
    } else {
      RequestOfInput(input);
    }
  }

  /** The handler reads the two numbers from the words of the message. */
  lemma RequestOfInput(input: string)
    ensures var ws := Words(input);
      RatingRequest(Strip(input)) ==
        if |ws| == 2 && ParseInt(ws[0]).Some? && ParseInt(ws[1]).Some?
        then Some((ParseInt(ws[0]).value, ParseInt(ws[1]).value))
        else None
  {
    WordsOfStrip(input);
  }

  /** An id for a file that does not exist is reported as a format error, like any
      malformed message. */
  lemma UnknownFileIsFormatError(data: UserData, st: Store, env: Env, input: string, fileId: int, score: int)
    requires !IsMenuLabel(input)
    requires RatingRequest(Strip(input)) == Some((fileId, score)) && fileId <= MaxSqlInt && fileId !in st.files
    ensures ReceiveRatingInput(data, st, env, input) == Next(End, data, st, BadRatingFormat)
  {
  }

  /** A printed integer is one word that is not a keyboard label. */
  lemma NumeralIsWord(n: int)
    ensures IntToString(n) != [] && NoSpace(IntToString(n))
    ensures !IsSpace(IntToString(n)[0]) && !IsSpace(IntToString(n)[|IntToString(n)| - 1])
    ensures IntToString(n) !in MenuButtons
  {
    var s := IntToString(n);
    StripOfNumeral(n);
    forall i | 0 <= i < |s| ensures !IsSpace(s[i]) {
      if i > 0 && n < 0 {
        assert s[i] == s[1..][i - 1];
      }
    }
    if s in MenuButtons {
      LabelsStartWithSymbols(s);
    }
  }

  /** Round trip: the message "<file id> <score>" is read back as those two numbers. */
  lemma RatingMessageRoundTrip(fileId: int, score: int)
    ensures var text := IntToString(fileId) + " " + IntToString(score);
      !IsMenuLabel(text) && RatingRequest(Strip(text)) == Some((fileId, score))
  {
    RatingMessageNoLabel(fileId, score);
    RatingMessageParsed(fileId, score);
  }

  lemma RatingMessageNoLabel(fileId: int, score: int)
    ensures !IsMenuLabel(IntToString(fileId) + " " + IntToString(score))
  {
    var a, b := IntToString(fileId), IntToString(score);
    var text := a + " " + b;
    NumeralIsWord(fileId);
    NumeralIsWord(score);
    TwoWords(a, b);
    assert text[0] == a[0];
    NumeralFirstNoLabel(fileId, text);
  }

  lemma RatingMessageParsed(fileId: int, score: int)
    ensures RatingRequest(Strip(IntToString(fileId) + " " + IntToString(score))) == Some((fileId, score))
  {
    var a, b := IntToString(fileId), IntToString(score);
    NumeralIsWord(fileId);
    NumeralIsWord(score);
    TwoWords(a, b);
    ParseIntToString(fileId);
    ParseIntToString(score);
  }

  /** Two words with one space between them strip to themselves and split back apart. */
  lemma TwoWords(a: string, b: string)
    requires a != [] && b != [] && NoSpace(a) && NoSpace(b)
    ensures Strip(a + " " + b) == a + " " + b
    ensures Words(a + " " + b) == [a, b]
  {
    var text := a + " " + b;
    assert text[0] == a[0] && text[|text| - 1] == b[|b| - 1];
    assert Join([a, b], " ") == text by {
      assert [a, b][1..] == [b];
    }
    WordsOfJoin([a, b]);
  }

  /** A text that starts like a printed integer is not a keyboard label. */
  lemma NumeralFirstNoLabel(n: int, text: string)
    requires text != [] && text[0] == IntToString(n)[0]
    ensures text !in MenuButtons
  {
    if text in MenuButtons {
      LabelsStartWithSymbols(text);
    }
  }

  /** Sending "<file id> <score>" for an existing file records that score. */
  lemma RateByMessage(data: UserData, st: Store, env: Env, fileId: int, score: int)
    requires 0 < fileId <= MaxSqlInt && fileId in st.files && 0 < env.userId <= MaxSqlInt
    requires MinScore <= score <= MaxScore
    ensures var text := IntToString(fileId) + " " + IntToString(score);
      ReceiveRatingInput(data, st, env, text) ==
        Next(End, data, RateFile(st, fileId, env.userId, score).value, Rated(fileId, score))
  {
    RatingMessageRoundTrip(fileId, score);
  }

  /** A typed file id beyond SQLite's range makes the rating step raise instead of
      answering, whether or not such a file could exist. */
  lemma HugeRatingIdCrashes(data: UserData, st: Store, env: Env, fileId: int, score: int)
    requires fileId > MaxSqlInt && env.userId > 0 && MinScore <= score <= MaxScore
    ensures ReceiveRatingInput(data, st, env, IntToString(fileId) + " " + IntToString(score)) == Crash(TooLarge)
  {
    RatingMessageRoundTrip(fileId, score);
  }

  /** No message breaks the store invariant. */
  lemma HandleKeepsValid(s: Session, data: UserData, st: Store, env: Env, msg: Message)
    requires Valid(st)
    ensures var r := Handle(s, data, st, env, msg);
      r.Ok? ==> Valid(r.value.store)
  {
    if !NoneFrom(0, s, msg) {
      var c := FirstTaker(s, msg);
      HandleByFirstTaker(c, s, data, st, env, msg);
      ConverseKeepsValid(c, s.StateOf(c), data, st, env, msg);
    }
  }

  lemma ConverseKeepsValid(c: Conv, step: Step, data: UserData, st: Store, env: Env, msg: Message)
    requires Valid(st) && Takes(c, step, msg)
    ensures var o := Converse(c, step, data, st, env, msg).value;
      o.Next? ==> Valid(o.store)
  {
    if step != End && msg.Text? {
      if step == AwaitingName {
        NameKeepsValid(data, st, env, msg.text);
      } else if step == AwaitingTags {
        TagsKeepValid(data, st, env, msg.text);
      } else if step == AwaitingRatingInput {
        RatingKeepsValid(data, st, env, msg.text);
      }
    }
  }

  /** Every conversation stays within its own states: the framework keeps at most one
      waiting state per form, and a message changes the state of one form only. */
  lemma HandleKeepsSessionOk(s: Session, data: UserData, st: Store, env: Env, msg: Message)
    requires SessionOk(s)
    ensures var r := Handle(s, data, st, env, msg);
      r.Ok? ==> SessionOk(r.value.session)
  {
    if !NoneFrom(0, s, msg) {
      var c := FirstTaker(s, msg);
      HandleByFirstTaker(c, s, data, st, env, msg);
      assert InForm(c, s.StateOf(c));
      var o := Converse(c, s.StateOf(c), data, st, env, msg).value;
      if o.Next? {
        var s2 := s.With(c, o.step);
        forall d: Conv ensures InForm(d, s2.StateOf(d)) {
          if d != c {
            assert InForm(d, s.StateOf(d));
          }
        }
      }
    }
  }

  lemma NameKeepsValid(data: UserData, st: Store, env: Env, t: string)
    requires Valid(st)
    ensures var o := ReceiveName(data, st, env, t);
      o.Next? ==> Valid(o.store)
  {
    var text := Strip(t);
    if AddUser(st, env.userId, text).Ok? {
      AddUserValid(st, env.userId, text);
    }
  }

  lemma TagsKeepValid(data: UserData, st: Store, env: Env, t: string)
    requires Valid(st)
    ensures var o := ReceiveTags(data, st, env, t);
      o.Next? ==> Valid(o.store)
  {
    var text := Strip(t);
    if !UploadMissing(data) {
      var a := AddFile(st, data.uploaderId.value, data.uploadPath.value, text, data.originalName.value);
      if a.Ok? {
        AddFileValid(st, data.uploaderId.value, data.uploadPath.value, text, data.originalName.value);
      }
    }
  }

  lemma RatingKeepsValid(data: UserData, st: Store, env: Env, t: string)
    requires Valid(st)
    ensures var o := ReceiveRatingInput(data, st, env, t);
      o.Next? ==> Valid(o.store)
  {
    var text := Strip(t);
    if RatingRequest(text).Some? {
      var req := RatingRequest(text).value;
      if RateFile(st, req.0, env.userId, req.1).Ok? {
        RateFileValid(st, req.0, env.userId, req.1);
      }
    }
  }

  /** The upload data `receive_file` leaves for a document with an allowed extension. */
  lemma UploadDataComplete(data: UserData, st: Store, env: Env, d: Document)
    requires env.userId > 0 && IsAllowedExtension(SplitExt(UploadName(d)).1)
    ensures var o := ReceiveFile(data, st, env, Some(d));
      && o.step == AwaitingTags
      && !UploadMissing(o.data) && o.data.uploaderId == Some(env.userId)
      && !IsBlank(o.data.uploadPath.value) && !IsBlank(o.data.originalName.value)
  {
    var name := UploadName(d);
    var ext := SplitExt(name).1;
    var clean := CleanFilename(name);
    var path := StoredPath(env.userId, clean, env.now, ext);
    AcceptedUpload(data, st, env, d);
    CleanNotBlank(name);
    StoredPathNotBlank(env.userId, clean, env.now, ext);
    UploadDataPresent(path, clean, env.userId);
  }

  /** What `receive_file` stores in the upload data for a document it accepts. */
  lemma AcceptedUpload(data: UserData, st: Store, env: Env, d: Document)
    requires IsAllowedExtension(SplitExt(UploadName(d)).1)
    ensures var name := UploadName(d);
      var ext := SplitExt(name).1;
      var clean := CleanFilename(name);
      ReceiveFile(data, st, env, Some(d)) ==
        Next(AwaitingTags, UserData(Some(StoredPath(env.userId, clean, env.now, ext)), Some(clean), Some(env.userId)), st, AskTags)
  {
  }

  lemma UploadDataPresent(path: string, clean: string, userId: int)
    requires !IsBlank(path) && !IsBlank(clean) && userId > 0
    ensures !UploadMissing(UserData(Some(path), Some(clean), Some(userId)))
  {
  }

  /** The stored path keeps the uploaded extension at its end, where `splitext` finds it. */
  lemma UploadKeepsExtension(data: UserData, st: Store, env: Env, d: Document)
    requires IsAllowedExtension(SplitExt(UploadName(d)).1)
    ensures var o := ReceiveFile(data, st, env, Some(d));
      SplitExt(o.data.uploadPath.value).1 == SplitExt(UploadName(d)).1
  {
    var name := UploadName(d);
    var ext := SplitExt(name).1;
    AcceptedUpload(data, st, env, d);
    AllowedNotEmpty(ext);
    StoredPathKeepsExtension(env.userId, CleanFilename(name), env.now, ext);
  }

  /** Every extension on the allow-list is a dot and at least three more characters. */
  lemma AllowedNotEmpty(ext: string)
    requires IsAllowedExtension(ext)
    ensures |ext| >= 4
  {
    assert |LowerStr(ext)| == |ext|;
  }

  /** A file name already in clean form keeps its extension inside the stored name, so
      the stored name carries the extension twice. */
  lemma UploadRepeatsExtension(data: UserData, st: Store, env: Env, name: string)
    requires 0 < |name| <= MaxCleanLength
    requires forall i | 0 <= i < |name| :: CleanChar(name[i]) && name[i] != ' '
    requires IsAllowedExtension(SplitExt(name).1)
    ensures var ext := SplitExt(name).1;
      var o := ReceiveFile(data, st, env, Some(Document(Some(name))));
      && name == SplitExt(name).0 + ext
      && o.data.uploadPath == Some(StorageDir + "/" + (IntToString(env.userId) + "_" + name + "_" + IntToString(env.now) + ext))
  {
    var d := Document(Some(name));
    var ext := SplitExt(name).1;
    assert UploadName(d) == name;
    CleanOfCleanForm(name);
    var o := ReceiveFile(data, st, env, Some(d));
    assert o.step == AwaitingTags;
    assert o.data.uploadPath == Some(StoredPath(env.userId, name, env.now, ext));
  }

  /** Sending a document and then tags records the upload: the new row holds the
      uploader, the stored path, the stripped tags and the stripped cleaned name, the
      path lookup finds it, and the upload data is cleared. */
  lemma UploadThenTags(st: Store, env: Env, d: Document, tags: string)
    requires Valid(st) && st.nextId <= MaxSqlInt && env.userId in st.users
    requires IsAllowedExtension(SplitExt(UploadName(d)).1)
    requires !IsMenuLabel(tags) && !IsBlank(tags)
    ensures var o1 := ReceiveFile(NoUpload, st, env, Some(d));
      var o2 := ReceiveTags(o1.data, st, env, tags);
      && o2.Next? && o2.reply.Uploaded? && o2.step == End && o2.data == NoUpload
      && o2.reply.fileId == st.nextId
      && o2.store.files[st.nextId] ==
           FileRec(env.userId, Strip(o1.data.uploadPath.value), Strip(tags), Strip(o1.data.originalName.value))
      && GetFilePathById(o2.store, st.nextId) == Ok(Some(Strip(o1.data.uploadPath.value)))
      && Valid(o2.store)
  {
    var o1 := ReceiveFile(NoUpload, st, env, Some(d));
    UploadDataComplete(NoUpload, st, env, d);
    TagsRecordUpload(o1.data, st, env, tags);
  }

  /** The tags step with complete upload data from a known uploader records the file
      under the next id and clears the upload data. */
  lemma TagsRecordUpload(data: UserData, st: Store, env: Env, tags: string)
    requires Valid(st) && st.nextId <= MaxSqlInt && !UploadMissing(data) && data.uploaderId.value in st.users
    requires !IsBlank(data.uploadPath.value) && !IsBlank(data.originalName.value)
    requires !IsMenuLabel(tags) && !IsBlank(tags)
    ensures var o := ReceiveTags(data, st, env, tags);
      && o.Next? && o.reply.Uploaded? && o.step == End && o.data == NoUpload
      && o.reply.fileId == st.nextId
      && o.store.files[st.nextId] ==
           FileRec(data.uploaderId.value, Strip(data.uploadPath.value), Strip(tags), Strip(data.originalName.value))
      && GetFilePathById(o.store, st.nextId) == Ok(Some(Strip(data.uploadPath.value)))
      && Valid(o.store)
  {
    var path, name, owner := data.uploadPath.value, data.originalName.value, data.uploaderId.value;
    assert AddFile(st, owner, path, Strip(tags), name).Ok? by {
      StripNotBlank(tags);
    }
    AddFileValid(st, owner, path, Strip(tags), name);
    StripIdempotent(tags);
  }

  /** Text an entry point accepts is a keyboard label to the `receive_*` callbacks. */
  lemma EntryIsMenuLabel(t: string, c: Conv)
    requires MatchesEntry(t, EntryLabel(c))
    ensures IsMenuLabel(t)
  {
    EntryLabelShape(c);
    StripNewline(EntryLabel(c));
  }

  /** Each entry label is a keyboard label without whitespace at either end. */
  lemma EntryLabelShape(c: Conv)
    ensures var b := EntryLabel(c);
      b in MenuButtons && b != [] && !IsSpace(b[0]) && !IsSpace(b[|b| - 1])
  {
    var b := EntryLabel(c);
    match c {
      case NameForm => assert b[0] == '📌' && b[|b| - 1] == 'я';
      case UploadForm => assert b[0] == '📤' && b[|b| - 1] == 'л';
      case SearchForm => assert b[0] == '🔍' && b[|b| - 1] == 'л';
      case RateForm => assert b[0] == '⭐' && b[|b| - 1] == 'л';
      case DownloadForm => assert b[0] == '📥' && b[|b| - 1] == 'л';
    }
  }

  /** The whole upload conversation from rest: the upload label starts the form, a
      document with an allowed extension moves it to the tags step, and tags that are no
      label record the file under the next id and take the user out of every form. */
  lemma UploadConversation(st: Store, env: Env, d: Document, tags: string)
    requires Valid(st) && st.nextId <= MaxSqlInt && env.userId in st.users
    requires IsAllowedExtension(SplitExt(UploadName(d)).1)
    requires !IsMenuLabel(tags) && !IsBlank(tags)
    ensures Handle(Idle, NoUpload, st, env, Text(UploadLabel)) ==
      Ok(Reaction(Idle.(upload := AwaitingFile), NoUpload, st, Prompt(UploadForm)))
    ensures var data := ReceiveFile(NoUpload, st, env, Some(d)).data;
      Handle(Idle.(upload := AwaitingFile), NoUpload, st, env, Attachment(d)) ==
        Ok(Reaction(Idle.(upload := AwaitingTags), data, st, AskTags))
    ensures var data := ReceiveFile(NoUpload, st, env, Some(d)).data;
      var r := Handle(Idle.(upload := AwaitingTags), data, st, env, Text(tags));
      && r.Ok? && r.value.session == Idle && r.value.data == NoUpload
      && r.value.reply.Uploaded? && r.value.reply.fileId == st.nextId
      && GetFilePathById(r.value.store, st.nextId) == Ok(Some(Strip(data.uploadPath.value)))
      && Valid(r.value.store)
  {
    IdleLabelStartsForm(UploadForm, NoUpload, st, env);
    DocumentRouting(Idle.(upload := AwaitingFile), NoUpload, st, env, d);
    UploadDataComplete(NoUpload, st, env, d);
    TagsStepFinishes(ReceiveFile(NoUpload, st, env, Some(d)).data, st, env, tags);
  }

  /** From the tags step, tags that are no label end the upload form and record the file. */
  lemma TagsStepFinishes(data: UserData, st: Store, env: Env, tags: string)
    requires Valid(st) && st.nextId <= MaxSqlInt && !UploadMissing(data) && data.uploaderId.value in st.users
    requires !IsBlank(data.uploadPath.value) && !IsBlank(data.originalName.value)
    requires !IsMenuLabel(tags) && !IsBlank(tags)
    ensures var r := Handle(Idle.(upload := AwaitingTags), data, st, env, Text(tags));
      && r.Ok? && r.value.session == Idle && r.value.data == NoUpload
      && r.value.reply.Uploaded? && r.value.reply.fileId == st.nextId
      && GetFilePathById(r.value.store, st.nextId) == Ok(Some(Strip(data.uploadPath.value)))
      && Valid(r.value.store)
  {
    var s2 := Idle.(upload := AwaitingTags);
    assert NoneBefore(UploadForm, s2, Text(tags)) by {
      forall c: Conv | Index(c) < Index(UploadForm) ensures !Takes(c, s2.StateOf(c), Text(tags)) {
        if Takes(c, s2.StateOf(c), Text(tags)) {
          EntryIsMenuLabel(tags, c);
        }
      }
    }
    HandleByFirstTaker(UploadForm, s2, data, st, env, Text(tags));
    TagsRecordUpload(data, st, env, tags);
  }

  /** An uploader who is not in the users table makes `add_file` raise, and the error
      escapes the tags step. */
  lemma UnknownUploaderCrashes(data: UserData, st: Store, env: Env, tags: string)
    requires !IsMenuLabel(tags) && !IsBlank(tags) && !UploadMissing(data)
    requires 0 < data.uploaderId.value <= MaxSqlInt && data.uploaderId.value !in st.users
    requires !IsBlank(data.uploadPath.value) && !IsBlank(data.originalName.value)
    ensures ReceiveTags(data, st, env, tags) == Crash(UnknownUser)
  {
    StripNotBlank(tags);
  }

  /** The download step sends exactly the stored file when its id is sent as a number
      and the file is present on disk. */
  lemma DownloadStored(data: UserData, st: Store, env: Env, fileId: int)
    requires 0 < fileId <= MaxSqlInt && fileId in st.files
    ensures var o := ReceiveFileIdForDownload(data, st, env, IntToString(fileId));
      && (st.files[fileId].path != [] && st.files[fileId].path in env.blobs ==>
            o == Next(End, data, st, Sent(st.files[fileId].path)))
      && (st.files[fileId].path !in env.blobs ==> o == Next(End, data, st, FileNotFound))
  {
    NumeralDownloadId(fileId);
    DownloadOfId(data, st, env, IntToString(fileId), fileId);
  }

  /** Once the text reads as a positive id, the reply depends on the lookup alone. */
  lemma DownloadOfId(data: UserData, st: Store, env: Env, input: string, fileId: int)
    requires !IsMenuLabel(input) && DownloadId(Strip(input)) == Some(fileId)
    ensures ReceiveFileIdForDownload(data, st, env, input) ==
      match GetFilePathById(st, fileId)
      case Err(f) => Crash(f)
      case Ok(path) =>
        if path.None? || path.value == [] || path.value !in env.blobs then Next(End, data, st, FileNotFound)
        else Next(End, data, st, Sent(path.value))
  {
  }

  /** An unknown file id within SQLite's range is answered with "not found", a
      non-positive one with "invalid id". */
  lemma DownloadRefused(data: UserData, st: Store, env: Env, fileId: int)
    ensures 0 < fileId <= MaxSqlInt && fileId !in st.files ==>
      ReceiveFileIdForDownload(data, st, env, IntToString(fileId)) == Next(End, data, st, FileNotFound)
    ensures fileId <= 0 ==>
      ReceiveFileIdForDownload(data, st, env, IntToString(fileId)) == Next(End, data, st, InvalidId)
  {
    NumeralDownloadId(fileId);
  }

  /** A typed file id beyond SQLite's range makes the download step raise instead of
      answering "not found". */
  lemma HugeDownloadIdCrashes(data: UserData, st: Store, env: Env, fileId: int)
    requires fileId > MaxSqlInt
    ensures ReceiveFileIdForDownload(data, st, env, IntToString(fileId)) == Crash(TooLarge)
  {
    NumeralDownloadId(fileId);
  }

  /** A printed integer is read back as a download id exactly when it is positive. */
  lemma NumeralDownloadId(n: int)
    ensures !IsMenuLabel(IntToString(n))
    ensures DownloadId(Strip(IntToString(n))) == if n > 0 then Some(n) else None
  {
    NumeralIsWord(n);
    StripOfNumeral(n);
    ParseIntToString(n);
  }

  /** The search step reports hits exactly when some file's tags match the query. */
  lemma SearchReportsIff(data: UserData, st: Store, env: Env, input: string)
    requires !IsMenuLabel(input) && !IsBlank(input)
    ensures ReceiveSearchQuery(data, st, env, input).reply.Found? <==>
      exists id :: Selected(st, Strip(input), id)
  {
    var ids := SearchIds(st, Strip(input));
    if ids != [] {
      assert ids[0] in ids;
    }
  }

  /** A query whose every word carries a comma, such as "матан," alone, finds nothing:
      the search splits on whitespace only, and tag words never hold a comma. */
  lemma CommaQueryReportsNothing(data: UserData, st: Store, env: Env, input: string)
    requires !IsMenuLabel(input) && !IsBlank(input)
    requires forall w | w in Words(input) :: ',' in w
    ensures ReceiveSearchQuery(data, st, env, input).reply == NothingFound
  {
    var q := Strip(input);
    assert Strip(q) == q;
    WordsOfStrip(input);
    forall id | id in st.files ensures !TagsMatch(q, st.files[id].tags) {
      CommaQueryFindsNothing(q, st.files[id].tags);
    }
    SearchReportsIff(data, st, env, input);
  }
}
