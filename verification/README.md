# PDFGenie session core, modelled in Dafny

PDFGenie is a single-page Streamlit application. A user activates it with a
license key, enters a name, uploads PDFs, which are processed once into a
knowledge base, and then asks questions, typed or spoken. The chat
transcript can be exported as a PDF. This project models the deterministic
session logic of `app.py` as pure functions over immutable datatypes, and
proves the properties that logic promises.

Modules, one per component:

- `Text` (`text.dfy`): optional values, Python truthiness of an optional
  string, and `str.strip()` with Python's whitespace set.
- `Collaborators` (`collaborators.dfy`): the opaque knowledge-base handle,
  uploaded documents, the builder and answerer functions the session is
  given, and the result of one speech-recognition attempt.
- `Conversation` (`conversation.dfy`): messages, the six-entry display
  window (`deque(maxlen=6)`), the append-only transcript, and
  `answer_question` with its greeting.
- `Export` (`export.dfy`): the story built by `export_chat_to_pdf`, as a list
  of paragraphs and spacers. It has a loop version, `BuildStory`, and a
  recursive reference definition, `Layout`.
- `License` (`license.dfy`): the key file and expiry file, saving and
  loading them, and the gate check. Time is whole seconds of local time. The
  expiry file holds a date, modelled as a day number.
- `App` (`app.dfy`): the session record, `initialize_session_state`, one run
  of `main` as a function of the widget values (`Rerun`), and a sequence of
  runs (`Replay`).

External calls are function parameters. Building the knowledge base is a
`Builder`, `seq<Document> -> KnowledgeBase`. Retrieval plus answer
generation is an `Answerer`, `(KnowledgeBase, string) -> string`. Speech
recognition is a `Recognition` value among the run's inputs. The clock is
the `now` field of the run's inputs. The license files are a `Storage`
value that each run receives and returns. Setting `OPENAI_API_KEY` is the
`credential` field of a run's result.

Two behaviours of the code are worth stating plainly:

- Expiry. The code's comment says the key should "Expire after 3 months"
  (app.py:25), and the activation message says "The key will expire in 3
  months" (app.py:156). But only the date of activation + 90 days is stored
  (app.py:27), and it is read back as midnight of that date (app.py:40).
  `now` is compared against that midnight (app.py:158), so a key expires up
  to one day before 90 full days have passed. `License.ExpiryBoundary` gives
  the exact boundary. `License.ExpiryTruncationShortensLifetime` exhibits a
  key that is already expired exactly 90 days after activation.
- Empty keys. Pressing Activate saves whatever was typed, even an empty or
  whitespace-only key, and marks the session valid for that run
  (app.py:151-155). On the next run, the stripped key is empty and counts as
  absent (app.py:33, app.py:149), so activation is asked for again
  (`License.BlankKeyNeedsActivation`).
- Expired keys. Once the stored key is expired, a run only warns and marks
  the session invalid (app.py:158-161). No key input is shown, because the
  key is still present (app.py:149), so activation is never offered again.
  The expiry file is never rewritten, and the key stays expired at every
  later time. `App.ExpiredKeyLocksOut` proves that every later run leaves
  the license files and the session unchanged apart from the valid flag.

## Model

| member | source | states |
|---|---|---|
| Text.StripEmptyIff | app.py:33 | The stripped key is empty exactly when every character of the file is whitespace. |
| Text.StripIdempotent | app.py:33 | Stripping an already stripped key changes nothing. |
| Text.StripKeepsSlice | app.py:33 | The stripped key is one contiguous slice of the file contents, and only whitespace is dropped on either side. |
| Text.Strip | app.py:33 | Python's `str.strip()`: the result has no whitespace at either end and is no longer than the input. `Text.StripKeepsSlice` and `Text.StripEmptyIff` state the rest. |
| Collaborators.VoiceToText | app.py:123-139 | Voice input yields the recognised text, or the empty string when the speech is not understood or the service cannot be reached. |
| Conversation.BoundedAppend | app.py:50 | Appending to the six-entry window gives at most six entries, namely the last six of the old window plus the new message (FIFO eviction). |
| Conversation.LastNAppend | app.py:50 | Trimming to the last n before or after appending one element gives the same sequence, so a window that mirrors the transcript keeps mirroring it. |
| Conversation.Record | app.py:80-81 | One message is appended to the transcript and lands at the back of the window. The window stays within six entries and keeps equalling the transcript's tail. |
| Conversation.Personalize | app.py:90-91 | The stored reply is "Hello " + name + ", " + response when the user name is truthy, and the response unchanged otherwise. |
| Conversation.AnswerQuestion | app.py:78-93 | The transcript grows by exactly two entries and earlier entries are unchanged. The first is the question, marked as user. The second is the generated answer, marked as bot, with "Hello <name>, " in front exactly when the user name is truthy. |
| Conversation.AnswerAppendsTwo | app.py:80-93 | After an answer, the transcript is the old transcript followed by the question and the stored reply, in that order. |
| Conversation.AnswerKeepsPairs | app.py:80-93 | Answering keeps the transcript as question/answer pairs: user messages at even positions, replies at odd ones. |
| Conversation.PairedExtend | app.py:80-93 | A paired transcript followed by a user message and then a reply is still paired. |
| Conversation.WindowIsTranscriptSuffix | app.py:49-52 | After any sequence of appends, the transcript is the old transcript followed by every appended message. The window equals its last min(6, length) entries, in order. |
| Conversation.EvictionIsFifo | app.py:50 | After eight messages, the window holds messages 3 to 8, counting from 1, in order. |
| Export.BuildStory | app.py:102-111 | The export loop, stepping through the transcript by two, produces exactly the reference layout. |
| Export.BlocksAppend | app.py:103-111 | Adding a pair or a single message after an even-length transcript adds exactly that one block at the end. |
| Export.BlockContents | app.py:104-111 | A block holds a "You: " paragraph, then a "Bot: " paragraph only when a partner entry exists, and one spacer. |
| Export.BlocksStructure | app.py:103-111 | The blocks hold one paragraph per message. Paragraph k is message k with the prefix for position k. There are ceil(n/2) spacers. |
| Export.LayoutStructure | app.py:102-111 | The story is one leading spacer and then the blocks: n paragraphs, paragraph k prefixed by position, 1 + ceil(n/2) spacers, and 1 + n + ceil(n/2) items. |
| Export.ExportRecoversTranscript | app.py:103-110 | With the "You: "/"Bot: " prefixes removed, the exported paragraphs are the transcript texts in their original order. |
| Export.BlocksIgnoreUserFlag | app.py:104-110 | The blocks depend only on the message texts. Prefixes are chosen by position, not by the user flag. |
| Export.LayoutIgnoresUserFlag | app.py:102-110 | Two transcripts with the same texts export identically, whatever their user flags. |
| Export.LayoutAppendPair | app.py:103-111 | Answering one more question adds one full block at the end of the export: "You: q", "Bot: a", then a spacer. |
| Export.LayoutTrailingQuestion | app.py:105-111 | An unpaired trailing message is rendered alone as "You: q" and a spacer, with no "Bot: " line. |
| Export.ExportThreeMessages | app.py:102-111 | [q1, a1, q2] exports as spacer, "You: q1", "Bot: a1", spacer, "You: q2", spacer. |
| License.SaveApiKey | app.py:21-27 | The key file gets the key exactly as typed. The stored expiry, read back as midnight of its date, is more than 89 days and at most 90 days after activation. |
| License.LoadApiKey | app.py:29-34 | A key is returned exactly when the key file exists. It is the file contents stripped of surrounding whitespace, so it has none left and is no longer than the contents. |
| License.LoadKeyExpiration | app.py:36-41 | An expiry is returned exactly when the expiry file exists. It is a midnight, and it falls on the stored date. |
| License.CheckLicense | app.py:146-165 | The run asks for activation exactly when the key is missing or all whitespace. The key is expired exactly when it is present, its expiry is stored and now is later than the expiry. Otherwise the key is valid, non-empty and stripped. |
| License.ActivatedKeyLifetime | app.py:25-27 | A non-blank key activated at T is valid at every time from T through T + 89 days and expired at every time after T + 90 days. |
| License.ExpiryBoundary | app.py:158 | The key is valid exactly up to and including midnight of the stored date, and expired exactly after it. |
| License.ExpiryTruncationShortensLifetime | app.py:27 | A key activated one second after midnight is already expired exactly 90 days later. |
| License.BlankKeyNeedsActivation | app.py:149-153 | A key that is blank after stripping sends every later run back to activation. |
| License.MissingExpiryIsValid | app.py:158 | A present key with no expiry file counts as valid. |
| License.ExpiryIsPermanent | app.py:158 | Once the key is expired, it stays expired at every later time. |
| App.InitializeSessionState | app.py:43-58 | An existing session is kept as it is. A fresh session satisfies the invariant and has an empty transcript, no user name, nothing processed, no knowledge base, and both license flags false. |
| App.IdentifyUser | app.py:168-173 | The name changes exactly when it was unset, OK is pressed and both names are non-empty. It then becomes "first last". Nothing else changes. |
| App.ProcessPdfs | app.py:180 | A processed session is left unchanged. Afterwards the session is processed exactly when it already was, or the button was pressed with uploads. Any change sets the built knowledge base and the processed flag. |
| App.SubmittedQuestion | app.py:186-191 | With the voice button pressed, the question is the voice result, which is empty on a recognition failure. Otherwise it is the typed text. |
| App.Ask | app.py:193-195 | A non-empty question without Export appends the answer cycle. An empty question, or Export pressed, leaves the session unchanged. Only the log can change. |
| App.AskPreservesWf | app.py:193-195 | Asking keeps the session invariant: the window mirrors the transcript and the transcript stays in pairs. |
| App.Proceed | app.py:162-202 | Behind a valid license, the run hands the key on as the credential, leaves the license files alone and keeps the session consistent. |
| App.Rerun | app.py:141-202 | Every run keeps the window within six entries, and the session holds a knowledge base exactly when it is marked as processed. |
| App.RerunPreservesWf | app.py:141-202 | Every run whose answer call returns keeps the full session invariant. |
| App.RerunLicenseGate | app.py:149-165 | A credential is handed on exactly when the license is valid. An expired key only clears the valid flag. The license files change only on activation, and then they hold the typed key. |
| App.RerunTranscript | app.py:185-195 | The transcript gains the question and its (possibly greeted) answer exactly when the license is valid, PDFs are processed, the question is non-empty and Export was not pressed. Otherwise the transcript is unchanged. |
| App.FailedVoiceLeavesTranscript | app.py:188-195 | A failed voice recognition leaves the log unchanged. |
| App.RerunProcessesAtMostOnce | app.py:176-181 | A processed session keeps its knowledge base. A new knowledge base appears exactly on a valid run that presses the button with uploads while nothing is processed yet. |
| App.RerunNameOnce | app.py:167-173 | The user name is set at most once, only to "first last", and exactly on a valid run that presses OK with both names non-empty while no name is set. |
| App.RerunExport | app.py:193-202 | A download is produced exactly when the license is valid, PDFs are processed, Export is pressed and the transcript is non-empty. It lays out the whole transcript, which that run leaves unchanged. |
| App.ExportPrefixMatchesFlag | app.py:103-110 | In every session satisfying the invariant, the positional "You: "/"Bot: " prefix of each exported paragraph agrees with the message's user flag. Every session reached while every answer call returns satisfies the invariant (`App.ReplayAppendOnly`). |
| App.InterruptedAnswerBreaksPairing | app.py:80-87 | From any paired transcript, if a question is recorded and its answer call then fails, the next answered question lands at an odd position. The transcript is no longer paired, and the export prints "Bot: " before that user message. |
| App.ExpiredKeyLocksOut | app.py:149-161 | Once the stored key is expired, every later run leaves the license files unchanged and the session unchanged apart from clearing the valid flag. Activation is never offered again. |
| App.ReplayAppendOnly | app.py:185-195 | Over any sequence of runs whose answer calls return, the invariant holds and the transcript only grows at its end. It gains two entries per answered run, and the window stays its last min(6, length) entries. |

## Left out

- Streamlit rendering. Widgets, `st.success`/`st.warning`/`st.error`, the
  spinners, `display_chat` (app.py:117-120) and the chat bubbles are
  presentation. Widget values and button presses are the `Widgets` inputs
  of a run.
- PDF processing internals (app.py:62-74). PyPDF2 extraction, the chunk
  splitter (chunk size 500, overlap 20) and the embeddings/FAISS index are
  external. They are the `Builder` parameter, and the knowledge base is an
  opaque handle.
- Retrieval and answer generation (app.py:83-88). The similarity search, the
  question-answering chain, the LLM call and the printed token usage are the
  `Answerer` parameter, which always returns.
- Speech capture (app.py:125-129). The microphone and recogniser are
  replaced by their outcome, a `Recognition` input.
- PDF rendering and the download link (app.py:96-101, app.py:112-114,
  app.py:199-202). The reportlab document, the style (justified body text)
  and the base64 link are not modelled. Only the story list is. The source
  never imports `SimpleDocTemplate`, `letter`, `Paragraph`, `Spacer`, `inch`
  or `getSampleStyleSheet`, so as written the export would raise NameError.
  The model describes the intended layout.
- Date text format. `strftime`/`strptime` with `%Y-%m-%d` become a day
  number. A malformed expiry file, which raises ValueError in the source, is
  not modelled. Neither is the 1..9999 year range.
- Time zones and daylight saving. Time is naive local time in whole
  seconds, and every day is 86400 seconds long.
- File I/O failures and the process environment. Reading and writing the
  two files cannot fail in the model. Setting `OPENAI_API_KEY` is the
  `credential` result of a run.
- `api_key_saved`/`api_key_valid`. They are kept as session fields and set
  as the source sets them. The source never reads them.
- Failing answer calls. In the source, the question is appended
  (app.py:80-81) before the answer chain is called (app.py:87). If that
  call raises, the question stays in the transcript with no reply, and the
  run stops. `Rerun` does not model that outcome. `App.Wf`,
  `App.RerunPreservesWf`, `App.ExportPrefixMatchesFlag` and
  `App.ReplayAppendOnly` therefore hold only while every answer call
  returns. After one failed call, the following questions sit at odd
  positions until another call fails, and the export puts "Bot: " in front
  of them (`App.InterruptedAnswerBreaksPairing`).
