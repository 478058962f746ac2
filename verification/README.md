# LectureLens bot: a Dafny model of its store and dialogue steps

LectureLens is a Telegram bot for sharing lecture material. A student registers a
display name, uploads a document with comma-separated tags, searches uploads by
keyword, rates a file from 1 to 5 and downloads a file by its id. This project models
two pieces of the bot's logic and proves properties about them.

- **The SQLite store** (`db.py`) becomes an immutable `Db.Store`. It holds:
  - the `users`, `files` and `ratings` tables as maps;
  - the AUTOINCREMENT counter of `files`.

  Every public function of `db.py` is a pure function that returns a `Result`. `Err`
  names which exception the Python code raises: one of its `ValueError`s, or the
  `OverflowError` of binding an id above SQLite's 64-bit INTEGER range
  (`Db.MaxSqlInt`, 2^63 - 1). The table constraints of `init_db`,
  together with what the operations guarantee, form the invariant `Db.Valid`.
- **The conversation steps** (`main.py`) are pure transitions in module `Dialogue`.
  - Each `receive_*` handler takes the per-user `user_data`, the store, an environment
    and one message.
  - It returns the next conversation state, the new `user_data`, the new store and the
    kind of reply.
  - The environment holds the sender's Telegram id, the clock and the set of files
    present on disk.
  - A `ValueError` or `OverflowError` that escapes a handler is the outcome `Crash`.
  - `Dialogue.Handle` is the dispatch `main()` sets up. Each of the five
    `ConversationHandler`s keeps its own state per (chat, user) key. A
    `Dialogue.Session` holds the five states of one such key, so the model covers one
    user in one chat. They
    are tried in registration order. A conversation the user is outside of takes only
    its entry label, which starts it with its `ask_for_*` prompt. A conversation the
    user is in takes only what its current state lists. The profile label comes last.
  - `clean_filename`, the extension allow-list and the stored-path builder are in
    module `Filenames`. `os.path.splitext` and `os.path.join` are written out as
    posixpath defines them.

The supporting modules are:

- `Text`: Python's `str.isspace`, `strip`, `split()`, `split(",")` and `lower`.
- `Numbers`: a subset of `int()` and `str()` of integers, with the round trip
  `int(str(n)) == n`.
- `Ordering`: sorted keys and order-keeping selection. The two listing queries have no
  ORDER BY, so they return rows in ascending file id, which is SQLite's rowid scan order.

The model reproduces these behaviours of the code as written:

- A query such as "матан, лекция" is split on whitespace only. Its word "матан," keeps
  the comma, and no tag word can match it.
- The stored file name repeats the extension: `{uid}_{clean_name}_{ts}{ext}`, where
  `clean_name` usually still ends in `ext`.
- `add_file` raises its unknown-owner `ValueError` inside a `try` that catches only
  `sqlite3.Error`, so the error escapes `receive_tags`.
- An unknown file id in the rating step is reported with the format-error reply.
- A typed file id above 2^63 - 1 in the rating or download step makes `sqlite3` raise
  `OverflowError`. Neither handler catches it, so the step crashes instead of answering.
- A form's label starts that form even while another form waits, when the waiting form
  was registered later or waits for a document. For example, the upload label sent to
  a waiting search starts the upload form and leaves the search pending.

## Model

| member | source | states |
|---|---|---|
| Db.Init | db.py:13-58 | A freshly created database has three empty tables and satisfies every table constraint. |
| Db.AddUser | db.py:81-94 | Fails exactly for a non-positive id, a blank name or an id above 2^63 - 1, with the matching fault; the overflow comes last because it arises only when the insert binds the id. Otherwise the id maps to the stripped name, replacing any earlier one, and nothing else changes. |
| Db.AddFile | db.py:130-157 | Fails exactly for a non-positive owner, a blank path, tags or name, an owner id above 2^63 - 1, or an owner missing from users. The overflow fault arises exactly when the argument checks pass and the owner id is too large. The unknown-owner fault arises exactly when all of that passes and the owner is missing. On success the row of stripped fields is stored under the counter's value, the counter advances by one and users and ratings are unchanged. |
| Db.QueryWords | db.py:208 | Every query word is non-empty and free of whitespace. |
| Db.TagWords | db.py:213 | No tag word contains a comma. |
| Db.SearchIds | db.py:193-215 | Search hits come in ascending id order, and an id is a hit exactly when the file exists, its owner joins with users, and its tag words meet the query words. |
| Db.SearchFiles | db.py:187-226 | Fails exactly on a blank query. Otherwise there is one hit per selected file, in scan order, carrying the file's path, name and tags, the owner's current name and the file's average rating. |
| Db.GetFilePathById | db.py:242-256 | Raises exactly for an id above 2^63 - 1. Otherwise it returns a path exactly when the id is positive and known, and then it is the stored path. |
| Db.OwnedIds | db.py:280-294 | The listed ids are ascending and are exactly the ids of the files the user owns. |
| Db.GetUserFiles | db.py:272-305 | Raises exactly for an id above 2^63 - 1. A non-positive id gives the empty list. Otherwise there is one entry per owned file, in id order, with its name, tags and average rating. |
| Db.RateFile | db.py:326-351 | Fails exactly for a non-positive file or rater id, a score outside 1..5, a file id above 2^63 - 1, an unknown file, or a rater id above 2^63 - 1. Once the arguments are valid, a too-large file id overflows at the existence query before the unknown-file check. A too-large rater id overflows only for a known file, at the upsert. On success the (file, rater) score is upserted and the other tables are unchanged. The rater need not be a registered user. |
| Db.AverageRating | db.py:381-385 | 0 when the file has no scores; otherwise the average times the number of scores equals their sum. |
| Db.GetFileRating | db.py:374-385 | Fails exactly for a non-positive id (the `ValueError`) or an id above 2^63 - 1 (the overflow); otherwise returns the file's average score. |
| DbLemmas.AddUserValid | db.py:81-94 | `add_user` preserves the store invariant. |
| DbLemmas.AddUserLatestWins | db.py:86-91 | Two successive registrations of the same id leave the state the second one alone would give. |
| DbLemmas.AddUserIdempotent | db.py:86-91 | Registering the same name twice equals registering it once. |
| DbLemmas.AddFileValid | db.py:130-157 | `add_file` preserves the store invariant: the owner exists, the stored text is non-blank and the ids stay below the counter. |
| DbLemmas.AddFileFresh | db.py:151-157 | The new id is positive, unused and greater than every id already in the table. |
| DbLemmas.AddFileIncreasing | db.py:151-157 | Two successive uploads get strictly increasing ids. |
| DbLemmas.AddFileThenPath | db.py:242-252 | After an upload with the counter within SQLite's range, the path lookup for the returned id gives the stripped path. |
| DbLemmas.AddFileThenListed | db.py:280-305 | After an upload, the owner's listing succeeds and contains the new id with the stripped name and tags. |
| DbLemmas.AddFileOtherListings | db.py:280-305 | An upload leaves every other user's listing unchanged. |
| DbLemmas.SearchFindsIff | db.py:193-215 | In a valid store a file is found exactly when its tag words meet the query words, because the JOIN with users never drops a row. |
| DbLemmas.TagsMatchIff | db.py:208-214 | A file matches exactly when some whitespace word of the query, lower-cased, equals some stripped and lower-cased comma piece of its tags. |
| DbLemmas.CommaWordNeverMatches | db.py:208-214 | A query word that carries a comma is a query word but never a tag word. |
| DbLemmas.CommaQueryFindsNothing | db.py:208-214 | A query all of whose words carry a comma matches no tags at all. |
| DbLemmas.SearchIsDisjunctive | db.py:208-214 | The query "a b" matches exactly when "a" or "b" alone would. |
| DbLemmas.SearchIgnoresCase | db.py:208-214 | Lower-casing the query or the tags does not change whether they match. |
| DbLemmas.SingleWordFindsTag | db.py:208-214 | A one-word query finds a comma-joined tag list when one of the tags, stripped, equals the word ignoring case. |
| RatingLemmas.RateFileValid | db.py:326-351 | `rate_file` preserves the store invariant: every score is for a known file and within 1..5. |
| RatingLemmas.RateFileCountAndTotal | db.py:342-349 | A new rater adds one score. A returning rater's old score is replaced, so the count is unchanged and the sum moves by the difference. |
| RatingLemmas.RateFileOtherFiles | db.py:342-349 | Rating one file leaves every other file's average unchanged. |
| RatingLemmas.AverageInRange | db.py:381-385 | A rated file's average in a valid store lies in [1, 5]. |
| RatingLemmas.UnratedIsZero | db.py:385 | A file id in 1..2^63 - 1 without scores has no raters and reports 0. |
| RatingLemmas.ReRateExample | tests/test_db.py:191-203 | Scores 2 and 4 from two raters, all ids within SQLite's range, then a re-rate of 2 to 5, give the average 4.5. |
| Numbers.ParseIntToString | main.py:316-317 | `int()` reads back every printed integer: `int(str(n)) == n`. |
| Filenames.Filter | main.py:78 | The first substitution keeps only word characters, whitespace, dots and hyphens. It never adds characters and leaves such a string as it is. |
| Filenames.Tidy | main.py:78-79 | After both substitutions and the strip, the name is single-spaced with no space at either end and made of clean characters. |
| Filenames.SplitExt | main.py:81 | `splitext` cuts the name into a stem and an extension that concatenate back to it. The extension is empty or one dot followed by no dot and no slash, and a non-empty extension has a non-empty stem. |
| Filenames.Shorten | main.py:80-82 | The shortened name keeps the whole extension and the first 90 characters of the stem, keeps a clean name clean, and is non-empty when its input is. |
| Filenames.CleanFilename | main.py:73-83 | The result is non-empty and made of clean characters. It is "unnamed_file" when nothing survives cleaning, the tidied name when that has at most 100 characters, and the shortened name otherwise. |
| Filenames.StoredPath | main.py:168-169 | The stored path is `storage/{uid}_{clean}_{ts}{ext}`. |
| FilenameLemmas.WordsOfCollapse | main.py:79 | Collapsing whitespace runs keeps the whitespace words. |
| FilenameLemmas.JoinWordsOfSingleSpaced | main.py:79 | A single-spaced string without outer spaces is its words joined by single spaces. |
| FilenameLemmas.TidyIsJoinedWords | main.py:78-79 | The tidied name is the words left by the filter, joined by single spaces. |
| FilenameLemmas.CollapseOfSingleSpaced | main.py:79 | Collapsing leaves a single-spaced string as it is. |
| FilenameLemmas.TidyOfTidy | main.py:78-79 | A string already in tidied form is its own tidied form. |
| FilenameLemmas.CleanFilenameIdempotent | main.py:73-83 | Cleaning a cleaned name gives it back whenever no shortening was needed. |
| FilenameLemmas.ShortenedLength | main.py:80-82 | A shortened name has at most 100 characters when its extension has at most 10. |
| FilenameLemmas.CleanNotBlank | main.py:83 | A cleaned name starts with a non-space character, so it is never blank. |
| FilenameLemmas.CleanOfCleanForm | main.py:73-83 | A name of at most 100 clean characters without spaces is its own cleaned form. |
| FilenameLemmas.StoredPathKeepsExtension | main.py:168-169 | `splitext` of the stored path gives back the uploaded extension. |
| FilenameLemmas.CleanDropsOne | main.py:78 | A name without whitespace that has one disallowed character is cleaned to the rest, when that fits in 100 characters. |
| FilenameLemmas.CleanQuestionMarkExample | tests/test_main.py:64-65 | "лекция?.pdf" is cleaned to "лекция.pdf". |
| FilenameLemmas.DocumentFallbackRefused | main.py:156-164 | The fallback name "document" has no extension, so it is refused. |
| FilenameLemmas.UpperCaseExtensionAllowed | main.py:158-160 | The allow-list ignores case: ".PDF" and ".Docx" pass. ".exe" and ".pdf " do not. |
| Dialogue.StepCode | main.py:42-47 | The states are the integers 0..5, and `END` is the only one coded -1. |
| Dialogue.ReceiveName | main.py:107-132 | A keyboard label or a blank name keeps `AWAITING_NAME` and the store. Otherwise the stripped name is stored for the sender and the conversation ends. The files, ratings and id counter are untouched. A sender id that is not positive or is above 2^63 - 1 is the one crash. |
| Dialogue.UploadName | main.py:156 | The name used for the upload is never empty. |
| Dialogue.ReceiveFile | main.py:145-183 | The step moves to `AWAITING_TAGS` exactly for a document whose extension is on the allow-list. It then records the stored path, the cleaned name and the uploader. Otherwise it stays in `AWAITING_FILE`. The store is never touched. |
| Dialogue.ReceiveTags | main.py:186-237 | A label or blank tags keep `AWAITING_TAGS`. Missing upload data ends the conversation with the store unchanged. The step crashes exactly when `add_file` fails. When `add_file` succeeds, the conversation ends with its new store, its id, the name and the stripped tags reported, and the upload data cleared. |
| Dialogue.ReceiveSearchQuery | main.py:251-285 | A label or a blank query keeps `AWAITING_SEARCH_QUERY`. Otherwise the conversation ends, reporting the non-empty hit list of `search_files` or that it found nothing. The store is never changed. |
| Dialogue.RatingRequest | main.py:312-317 | A rating message is read exactly when it has two whitespace tokens that both parse as integers, and it yields their values. |
| Dialogue.ReceiveRatingInput | main.py:299-342 | Only a keyboard label keeps `AWAITING_RATING_INPUT`. The step crashes exactly when the two numbers make `rate_file` overflow. Every other message ends the conversation, either with the score recorded through `rate_file` or with the format-error reply and the store unchanged. |
| Dialogue.DownloadId | main.py:366-369 | An id is read exactly when `int()` succeeds and the value is positive. |
| Dialogue.ReceiveFileIdForDownload | main.py:356-393 | Only a label keeps `AWAITING_FILE_ID_FOR_DOWNLOAD`. The step crashes exactly when the id read is above 2^63 - 1. "Invalid id" is the reply exactly when no positive id is read. A sent file is the stored path of that id and is present on disk. |
| Dialogue.Converse | main.py:456-524 | Outside a conversation, exactly its entry label, with an optional final newline, is taken: the form enters the state `ask_for_*` returns and sends its prompt. Inside it, only the kind of message the current state lists is taken. |
| Dialogue.Handle | main.py:526-535 | A message that no conversation takes changes nothing. It is answered by the profile handler when it is the profile label, and dropped otherwise. |
| DialogueLemmas.StepCodeInjective | main.py:42-47 | The state constants are pairwise distinct. |
| DialogueLemmas.LabelsStartWithSymbols | main.py:60-67 | Every keyboard label starts with a character that is not whitespace, a digit or a minus sign. |
| DialogueLemmas.BlankIsNoLabel | main.py:60-67 | A blank message is never a keyboard label. |
| DialogueLemmas.HandleByFirstTaker | main.py:526-531 | The first conversation in registration order that takes a message handles it, and only that conversation's state changes. |
| DialogueLemmas.LabelStartsForm | main.py:456-459 | A form's label starts that form with its prompt when the user is outside it and each earlier-registered form is idle or waits for a document. Nothing else changes (also lines 468-471, 483-486, 497-500 and 511-514). |
| DialogueLemmas.IdleLabelStartsForm | main.py:97-104 | Outside every conversation, each form's label starts that form in the state its `ask_for_*` returns (also lines 135-142, 240-248, 288-296 and 345-353). |
| DialogueLemmas.NameLabelDuringUpload | main.py:526-528 | The name label starts the name form while an upload waits for its document, and the upload stays pending. |
| DialogueLemmas.UploadLabelDuringSearch | main.py:528-529 | The upload label sent to a waiting search starts the upload form, which is registered earlier, and the search stays pending. |
| DialogueLemmas.EntryIsMenuLabel | main.py:60-67 | Text that an entry point accepts is a keyboard label to every `receive_*` guard. |
| DialogueLemmas.MenuLabelKeepsStep | main.py:112-114 | A keyboard label sent to a form that waits for text keeps every state, the upload data and the store, when no earlier-registered conversation takes it. The reply is "finish the input first" (also lines 191-195, 256-260, 305-309 and 362-364). |
| DialogueLemmas.DocumentRouting | main.py:472-475 | A document goes to `receive_file` exactly when the upload form waits for one. Otherwise it is dropped and nothing changes. |
| DialogueLemmas.HandleKeepsSessionOk | main.py:456-531 | Every conversation stays outside or in one of its own states, whatever message arrives. |
| DialogueLemmas.BlankInputAsksAgain | main.py:115-119 | Blank text makes `receive_name`, `receive_tags` and `receive_search_query` ask again without changing anything (also lines 196-200 and 261-265). |
| DialogueLemmas.BlankInputEnds | main.py:311-342 | Blank text ends the rating step with the format-error reply and the download step with the invalid-id reply. |
| DialogueLemmas.RatingAcceptedIff | main.py:311-341 | A score is recorded exactly for an accepted rating message, with that file, sender and score. An accepted message has two integer tokens, a known file id and a sender id, both in 1..2^63 - 1, and a score in 1..5. The step crashes exactly when an otherwise valid id does not fit SQLite's INTEGER where `rate_file` binds it. Any other non-label message gets the format-error reply and changes nothing. |
| DialogueLemmas.UnknownFileIsFormatError | main.py:336-341 | A well-formed rating for a file id within SQLite's range that does not exist gets the format-error reply. |
| DialogueLemmas.RatingMessageRoundTrip | main.py:312-317 | The message "<file id> <score>" is read back as exactly those two numbers. |
| DialogueLemmas.RateByMessage | tests/test_main.py:109-119 | Sending "<file id> <score>" for an existing file, from a sender within SQLite's range, records that score and ends the conversation. |
| DialogueLemmas.HugeRatingIdCrashes | main.py:316-336 | A typed rating message "<file id> <score>" with a file id above 2^63 - 1, a positive sender and a score in 1..5 makes `rate_file` raise `OverflowError`. The handler catches only `ValueError` and `IndexError`, so the step crashes. |
| DialogueLemmas.HandleKeepsValid | main.py:526-535 | No message breaks the store invariant, whichever handler takes it. |
| DialogueLemmas.UploadDataComplete | main.py:174-177 | An accepted document leaves all three upload keys present and non-blank, so the tags step will not report lost data. |
| DialogueLemmas.UploadKeepsExtension | main.py:168-169 | The stored path ends in the uploaded extension, where `splitext` finds it. |
| DialogueLemmas.UploadRepeatsExtension | main.py:168 | For a name already in clean form, the stored path carries the extension twice: once inside the cleaned name and once appended. |
| DialogueLemmas.UploadThenTags | tests/test_main.py:75-92 | While the counter is within SQLite's range, a document followed by tags records the file under the next id, with the uploader, the stripped path, tags and name. The path lookup finds it, the upload data is cleared and the store stays valid. |
| DialogueLemmas.UploadConversation | main.py:468-481 | While the counter is within SQLite's range, the upload label, an accepted document and tags, sent from outside every form, record the file under the next id. The path lookup finds it, the store stays valid and the user ends outside every form. |
| DialogueLemmas.TagsRecordUpload | main.py:186-237 | While the counter is within SQLite's range, complete upload data from a registered uploader and real tags make the tags step record the file under the next id, with the stripped path, tags and name. The path lookup then finds it, the upload data is cleared and the store stays valid. |
| DialogueLemmas.UnknownUploaderCrashes | db.py:143-149 | An uploader id within SQLite's range that is missing from users makes `add_file` raise, and the error escapes the tags step. |
| DialogueLemmas.DownloadStored | main.py:367-385 | Sending a known id within SQLite's range as a number sends exactly its stored file when that file is on disk, and otherwise answers "not found". |
| DialogueLemmas.DownloadRefused | main.py:367-379 | An unknown id in 1..2^63 - 1 gets "not found" and a non-positive one gets "invalid id". |
| DialogueLemmas.HugeDownloadIdCrashes | main.py:367-372 | A typed download id above 2^63 - 1 passes the positivity check, then makes `get_file_path_by_id` raise `OverflowError`. The handler catches only `ValueError` and `TypeError`, so the step crashes. |
| DialogueLemmas.SearchReportsIff | main.py:267-285 | The search step reports hits exactly when some file is selected for the stripped query. |
| DialogueLemmas.CommaQueryReportsNothing | db.py:208-214 | A query whose every word carries a comma, such as "матан," alone, is answered with "nothing found". |

## Left out

- The Telegram transport is left out: `Update`, the reply texts and keyboards, and
  `reply_document`. Replies are an enumeration of kinds.
- The prompts of the entry points `ask_for_*` are the reply kind `Prompt`; their texts
  are left out.
- Dialogue.Handle: commands are not messages of the model. `/start` and the
  conversations' `/start` fallbacks are left out: the text filters exclude commands,
  and their routing belongs to the framework. Conversation timeouts and handler groups
  other than the default one are framework features `main()` does not use.
- `user_data` shared across a user's chats is left out. The conversations key their
  states by (chat, user), the framework default, while `user_data` belongs to the user
  in every chat. A `Session` is the states of one key, so the model covers one chat. An
  upload started in one chat whose upload data is then read by a tags step in another
  chat is not modelled.
- `show_profile` is presentation over direct SQL. Its dispatch is modelled, as the
  reply kind `ProfileShown`, but its output is not.
- SQLite connection failures are left out: the `sqlite3.Error` branches that return
  False, None, [] or 0.0. Every store operation succeeds apart from its `ValueError`s and
  the `OverflowError` of an id above 2^63 - 1.
- In the rating step, the "could not save" reply for `rate_file` returning False is
  therefore not modelled, and neither is the "could not save" reply of `receive_tags`
  for `add_file` returning None.
- File I/O is left out: the download of the uploaded blob, `os.path.isfile` and `open`.
  The set of paths present on disk is the parameter `Env.blobs`.
- `datetime.now()` is the parameter `Env.now`.
- Logging, dotenv, the bot token check and the float rendering `:.1f` are left out.
- The model does not cover the full Unicode behaviour of Python:
  - `\w` is ASCII letters, digits, `_` and the Cyrillic block.
  - `lower()` covers ASCII and basic Cyrillic capitals.
  - `int()` accepts optional surrounding whitespace, an optional sign and ASCII digits
    with single `_` separators. It does not accept other Unicode digits.
  - `str.isspace()` is its exact list of code points.
- CPython's `int()` and `str()` refuse more than 4300 decimal digits by default
  (`sys.int_max_str_digits`); `Numbers` has no digit limit. A Telegram text message
  holds at most 4096 characters, so no typed number reaches that limit.
- `AVG(rating)` is an exact rational; the conversion to a Python float is left out.
- The foreign key from `ratings.user_id` to `users` is not enforced by SQLite without
  `PRAGMA foreign_keys`, and `rate_file` does not check it, so `Db.Valid` does not
  require raters to be registered.
- Db.AddFile: the AUTOINCREMENT counter is unbounded. SQLite fails the insert with
  `SQLITE_FULL` once an id of 2^63 - 1 has been issued. That is an `sqlite3.Error`, left
  out with the others, so the lemmas that read a new id back require the counter to be
  within range.
- After `Crash` the conversation state is not modelled. What the framework does with
  an escaped error lies outside `main.py`.
- Filenames.CleanFilename: the result can exceed 100 characters when the extension is
  longer than 10. The code cuts only the stem, so `FilenameLemmas.ShortenedLength`
  bounds the length only for extensions of at most 10 characters.
- FilenameLemmas.CleanFilenameIdempotent: idempotence is stated only when no
  shortening happened. A shortened name can end in a space when the cut at 90
  characters falls just after one and there is no extension. Cleaning it again strips
  that space.
- Dialogue.ReceiveFile: the upload of the blob to the stored path happens in the code
  before the user data is set. An I/O failure there is not caught by the code and is not
  modelled.
