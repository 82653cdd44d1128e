/**
 * One run of the application's page script: the session state kept between
 * runs, the widget values and button presses of one run, and the step that
 * applies the license gate, the name form, the one-time PDF processing, the
 * question/answer cycle and the transcript export, in that order.
 */
module App {
  import opened Text
  import opened Collaborators
  import opened Conversation
  import opened Export
  import opened License

  /** The per-session state the page script keeps between runs. */
  datatype Session = Session(
    pdfsProcessed: bool,
    knowledgeBase: Option<KnowledgeBase>,
    log: Log,
    userName: Option<string>,
    apiKeySaved: bool,
    apiKeyValid: bool)

  /** Every key as `initialize_session_state` first sets it. */
  const InitialSession := Session(false, None, EmptyLog, None, false, false)

  /** What a run can rely on: the window respects its capacity, and the
      session holds a knowledge base exactly when it is marked as processed
      (both are set together, and only by processing). */
  predicate Consistent(s: Session)
  {
    && |s.log.window| <= WindowCapacity
    && (s.pdfsProcessed <==> s.knowledgeBase.Some?)
  }

  /** The invariant of every session reachable while every answer call
      returns: the window is the last six transcript entries; nothing is
      logged before processing; the transcript is a sequence of
      question/answer pairs, questions at even positions; a user name, once
      set, is non-empty. (`InterruptedAnswerBreaksPairing` shows what a
      failing answer call does to the pairing.) */
  predicate Wf(s: Session)
  {
    && Consistent(s)
    && WindowMatches(s.log)
    && (!s.pdfsProcessed ==> s.log.transcript == [])
    && Paired(s.log.transcript)
    && (s.userName.Some? ==> s.userName.value != [])
  }

  /** `initialize_session_state`: the keys of an earlier run are kept; a
      fresh session gets the initial values. */
  function InitializeSessionState(prior: Option<Session>): (s: Session)
    ensures prior.Some? ==> s == prior.value
    ensures prior.None? ==> Wf(s) && s.log.transcript == [] && s.userName.None? && !s.pdfsProcessed
                            && s.knowledgeBase.None? && !s.apiKeySaved && !s.apiKeyValid
  {
    match prior
    case None => InitialSession
    case Some(s) => s
  }

  /** The widget values and button presses of one run. */
  datatype Widgets = Widgets(
    now: int,
    licenseInput: string,
    activatePressed: bool,
    firstName: string,
    lastName: string,
    okPressed: bool,
    uploads: seq<Document>,
    processPressed: bool,
    voicePressed: bool,
    recognition: Recognition,
    typedQuestion: string,
    exportPressed: bool)

  /** The effects of one run: the session and the license files afterwards,
      the key handed to the answer generator as its credential (when the
      gate let the run through), and the story of the export (when one was
      requested). */
  datatype RunResult = RunResult(
    session: Session,
    storage: Storage,
    credential: Option<string>,
    download: Option<seq<Item>>)

  /** The name form: the name becomes "first last" only while no name is set,
      only on OK, and only when both parts are non-empty. Nothing else in the
      session changes. */
  function IdentifyUser(s: Session, first: string, last: string, okPressed: bool): (r: Session)
    ensures r == s.(userName := r.userName)
    ensures r.userName != s.userName <==> (!Truthy(s.userName) && okPressed && first != [] && last != [])
    ensures r.userName != s.userName ==> r.userName == Some(first + " " + last)
    ensures r.userName.Some? ==> r.userName.value != [] || r.userName == s.userName
  {
    if !Truthy(s.userName) && okPressed && first != [] && last != [] then
      s.(userName := Some(first + " " + last))
    else
      s
  }

  /** The "Process PDFs" button: builds the knowledge base only when pressed,
      with a non-empty upload list, and only if nothing was processed yet. */
  function ProcessPdfs(s: Session, uploads: seq<Document>, pressed: bool, build: Builder): (r: Session)
    ensures s.pdfsProcessed ==> r == s
    ensures r.pdfsProcessed <==> s.pdfsProcessed || (pressed && |uploads| > 0)
    ensures r != s ==> r == s.(pdfsProcessed := true, knowledgeBase := Some(build(uploads)))
  {
    if pressed && |uploads| > 0 && !s.pdfsProcessed then
      s.(knowledgeBase := Some(build(uploads)), pdfsProcessed := true)
    else
      s
  }

  /** The question of this run: the recognised speech when the voice button
      was pressed (empty on a recognition failure), the text box otherwise. */
  function SubmittedQuestion(ui: Widgets): (question: string)
    ensures ui.voicePressed ==> question == VoiceToText(ui.recognition)
    ensures !ui.voicePressed ==> question == ui.typedQuestion
  {
    if ui.voicePressed then VoiceToText(ui.recognition) else ui.typedQuestion
  }

  /** The question/answer cycle of a processed session: a non-empty question
      is answered unless Export was pressed in the same run. */
  function Ask(s: Session, question: string, exportPressed: bool, generate: Answerer): (r: Session)
    requires Consistent(s) && s.pdfsProcessed
    ensures Consistent(r)
    ensures r == s.(log := r.log)
    ensures question != [] && !exportPressed ==>
              r.log == AnswerQuestion(s.log, s.knowledgeBase.value, generate, s.userName, question)
    ensures question == [] || exportPressed ==> r == s
  {
    if question != [] && !exportPressed then
      s.(log := AnswerQuestion(s.log, s.knowledgeBase.value, generate, s.userName, question))
    else
      s
  }

  lemma AskPreservesWf(s: Session, question: string, exportPressed: bool, generate: Answerer)
    requires Wf(s) && s.pdfsProcessed
    ensures Wf(Ask(s, question, exportPressed, generate))
  {
    if question != [] && !exportPressed {
      AnswerKeepsPairs(s.log, s.knowledgeBase.value, generate, s.userName, question);
    }
  }

  /** The part of a run behind a valid license: the name form, PDF
      processing, then, once processed, one question and the export. */
  function Proceed(s: Session, key: string, store: Storage, ui: Widgets,
                   build: Builder, generate: Answerer): (r: RunResult)
    requires Consistent(s)
    ensures Consistent(r.session)
    ensures r.storage == store && r.credential == Some(key)
  {
    var named := IdentifyUser(s, ui.firstName, ui.lastName, ui.okPressed);
    var processed := ProcessPdfs(named, ui.uploads, ui.processPressed, build);
    if !processed.pdfsProcessed then
      RunResult(processed, store, Some(key), None)
    else
      var asked := Ask(processed, SubmittedQuestion(ui), ui.exportPressed, generate);
      var download := if |asked.log.transcript| > 0 && ui.exportPressed
                      then Some(Layout(asked.log.transcript)) else None;
      RunResult(asked, store, Some(key), download)
  }

  /** One run of `main`. A missing or blank key shows the activation form,
      and pressing Activate saves the typed key. An expired key only marks
      the session invalid. A valid key is handed on as the credential, after
      which the name form, PDF processing, one question and the export run in
      that order. */
  function Rerun(prior: Option<Session>, store: Storage, ui: Widgets,
                 build: Builder, generate: Answerer): (r: RunResult)
    requires prior.Some? ==> Consistent(prior.value)
    ensures Consistent(r.session)
  {
    var s := InitializeSessionState(prior);
    match CheckLicense(store, ui.now)
    case NeedsActivation =>
      if ui.activatePressed then
        RunResult(s.(apiKeySaved := true, apiKeyValid := true),
                  SaveApiKey(ui.licenseInput, ui.now), None, None)
      else
        RunResult(s, store, None, None)
    case Expired =>
      RunResult(s.(apiKeyValid := false), store, None, None)
    case Valid(key) =>
      Proceed(s.(apiKeyValid := true), key, store, ui, build, generate)
  }

  /** Whether a run with these inputs answers a question: the license is
      valid, PDFs are processed (before or during the run), the submitted
      question is non-empty and Export was not pressed. */
  predicate Answers(prior: Option<Session>, store: Storage, ui: Widgets)
  {
    && CheckLicense(store, ui.now).Valid?
    && (InitializeSessionState(prior).pdfsProcessed || (ui.processPressed && |ui.uploads| > 0))
    && SubmittedQuestion(ui) != []
    && !ui.exportPressed
  }

  /** Every run keeps the session invariant. */
  lemma RerunPreservesWf(prior: Option<Session>, store: Storage, ui: Widgets,
                         build: Builder, generate: Answerer)
    requires prior.Some? ==> Wf(prior.value)
    ensures Wf(Rerun(prior, store, ui, build, generate).session)
  {
    var s := InitializeSessionState(prior);
    if CheckLicense(store, ui.now).Valid? {
      var named := IdentifyUser(s.(apiKeyValid := true), ui.firstName, ui.lastName, ui.okPressed);
      var processed := ProcessPdfs(named, ui.uploads, ui.processPressed, build);
      assert Wf(named);
      assert Wf(processed);
      if processed.pdfsProcessed {
        AskPreservesWf(processed, SubmittedQuestion(ui), ui.exportPressed, generate);
      }
    }
  }

  /** The license gate of a run agrees with `CheckLicense`: only a valid key
      lets the run through and is handed on as the credential; the license
      files change only when activation is needed and Activate is pressed. */
  lemma RerunLicenseGate(prior: Option<Session>, store: Storage, ui: Widgets,
                         build: Builder, generate: Answerer)
    requires prior.Some? ==> Consistent(prior.value)
    ensures var r := Rerun(prior, store, ui, build, generate);
            var status := CheckLicense(store, ui.now);
            && (r.credential.Some? <==> status.Valid?)
            && (status.Valid? ==> r.credential == Some(status.key) && r.session.apiKeyValid)
            && (status.Expired? ==> !r.session.apiKeyValid && r.session == InitializeSessionState(prior).(apiKeyValid := false))
            && (r.storage == if status == NeedsActivation && ui.activatePressed
                             then SaveApiKey(ui.licenseInput, ui.now) else store)
            && (status == NeedsActivation && ui.activatePressed ==> r.session.apiKeySaved && r.session.apiKeyValid)
  {
  }

  /** Two appends per answered question, and only then: the transcript of a
      run is the previous one plus the question and its (possibly greeted)
      answer exactly when the run answers, and unchanged otherwise. */
  lemma RerunTranscript(prior: Option<Session>, store: Storage, ui: Widgets,
                        build: Builder, generate: Answerer)
    requires prior.Some? ==> Consistent(prior.value)
    ensures var r := Rerun(prior, store, ui, build, generate);
            var t := InitializeSessionState(prior).log.transcript;
            && (Answers(prior, store, ui) ==>
                  r.session.knowledgeBase.Some?
                  && r.session.log.transcript
                     == t + [Message(SubmittedQuestion(ui), true),
                             Message(Personalize(r.session.userName,
                                                 generate(r.session.knowledgeBase.value, SubmittedQuestion(ui))),
                                     false)])
            && (!Answers(prior, store, ui) ==> r.session.log.transcript == t)
  {
    var s := InitializeSessionState(prior);
    if CheckLicense(store, ui.now).Valid? {
      var named := IdentifyUser(s.(apiKeyValid := true), ui.firstName, ui.lastName, ui.okPressed);
      var processed := ProcessPdfs(named, ui.uploads, ui.processPressed, build);
      if processed.pdfsProcessed {
        var q := SubmittedQuestion(ui);
        var asked := Ask(processed, q, ui.exportPressed, generate);
        if q != [] && !ui.exportPressed {
          AnswerAppendsTwo(processed.log, processed.knowledgeBase.value, generate, processed.userName, q);
        }
      }
    }
  }

  /** A failed recognition submits the empty string, so a voice run leaves
      the transcript as it was. */
  lemma FailedVoiceLeavesTranscript(prior: Option<Session>, store: Storage, ui: Widgets,
                                    build: Builder, generate: Answerer)
    requires prior.Some? ==> Consistent(prior.value)
    requires ui.voicePressed && !ui.recognition.Heard?
    ensures Rerun(prior, store, ui, build, generate).session.log == InitializeSessionState(prior).log
  {
  }

  /** PDFs are processed at most once: a processed session keeps its
      knowledge base, and a new one appears only on a valid-license run that
      presses the button with uploads before anything was processed. */
  lemma RerunProcessesAtMostOnce(prior: Option<Session>, store: Storage, ui: Widgets,
                                 build: Builder, generate: Answerer)
    requires prior.Some? ==> Consistent(prior.value)
    ensures var s := InitializeSessionState(prior);
            var r := Rerun(prior, store, ui, build, generate);
            && (s.pdfsProcessed ==> r.session.pdfsProcessed && r.session.knowledgeBase == s.knowledgeBase)
            && (r.session.knowledgeBase != s.knowledgeBase <==>
                  (CheckLicense(store, ui.now).Valid? && !s.pdfsProcessed
                   && ui.processPressed && |ui.uploads| > 0))
            && (r.session.pdfsProcessed && !s.pdfsProcessed ==> r.session.knowledgeBase == Some(build(ui.uploads)))
  {
  }

  /** The user name is set at most once, to "first last", and only on a
      valid-license run that presses OK with both names non-empty. */
  lemma RerunNameOnce(prior: Option<Session>, store: Storage, ui: Widgets,
                      build: Builder, generate: Answerer)
    requires prior.Some? ==> Consistent(prior.value)
    requires prior.Some? && prior.value.userName.Some? ==> prior.value.userName.value != []
    ensures var s := InitializeSessionState(prior);
            var r := Rerun(prior, store, ui, build, generate);
            && (s.userName.Some? ==> r.session.userName == s.userName)
            && (r.session.userName != s.userName <==>
                  (CheckLicense(store, ui.now).Valid? && s.userName.None?
                   && ui.okPressed && ui.firstName != [] && ui.lastName != []))
            && (r.session.userName != s.userName ==>
                  r.session.userName == Some(ui.firstName + " " + ui.lastName))
  {
    var s := InitializeSessionState(prior);
    assert Truthy(s.userName) <==> s.userName.Some?;
    if CheckLicense(store, ui.now).Valid? {
      var named := IdentifyUser(s.(apiKeyValid := true), ui.firstName, ui.lastName, ui.okPressed);
      var processed := ProcessPdfs(named, ui.uploads, ui.processPressed, build);
      assert processed.userName == named.userName;
      if processed.pdfsProcessed {
        var asked := Ask(processed, SubmittedQuestion(ui), ui.exportPressed, generate);
        assert asked.userName == named.userName;
      }
    }
  }

  /** An export is produced exactly when the license is valid, PDFs are
      processed, Export is pressed and the transcript is non-empty; it lays
      out the whole transcript, which that run leaves unchanged. */
  lemma RerunExport(prior: Option<Session>, store: Storage, ui: Widgets,
                    build: Builder, generate: Answerer)
    requires prior.Some? ==> Consistent(prior.value)
    ensures var s := InitializeSessionState(prior);
            var r := Rerun(prior, store, ui, build, generate);
            && (r.download.Some? <==>
                  (CheckLicense(store, ui.now).Valid?
                   && (s.pdfsProcessed || (ui.processPressed && |ui.uploads| > 0))
                   && ui.exportPressed && |s.log.transcript| > 0))
            && (r.download.Some? ==>
                  r.session.log == s.log && r.download.value == Layout(s.log.transcript))
  {
  }

  /** In a session satisfying the invariant the positional "You: "/"Bot: " prefixes of the
      export agree with the messages' own user flags. */
  lemma ExportPrefixMatchesFlag(s: Session, k: nat)
    requires Wf(s)
    requires k < |s.log.transcript|
    ensures var ps := Paragraphs(Layout(s.log.transcript));
            && k < |ps|
            && ps[k] == (if s.log.transcript[k].isUser then UserPrefix else BotPrefix) + s.log.transcript[k].text
  {
    LayoutStructure(s.log.transcript);
  }

  /** The pairing needs every answer call to return. The question is
      recorded before the answer is generated, so a call that fails leaves
      an unanswered question behind. The next question then lands at an odd
      position, the transcript is no longer paired, and the export puts
      "Bot: " in front of that user message. */
  lemma InterruptedAnswerBreaksPairing(log: Log, kb: KnowledgeBase, generate: Answerer,
                                       userName: Option<string>, unanswered: string, q: string)
    requires |log.window| <= WindowCapacity
    requires Paired(log.transcript)
    ensures var n := |log.transcript|;
            var stranded := Record(log, Message(unanswered, true));
            var t := AnswerQuestion(stranded, kb, generate, userName, q).transcript;
            var ps := Paragraphs(Layout(t));
            && t[n] == Message(unanswered, true)
            && t[n + 1] == Message(q, true)
            && !Paired(t)
            && |ps| == n + 3
            && ps[n + 1] == BotPrefix + q
  {
    var n := |log.transcript|;
    var stranded := Record(log, Message(unanswered, true));
    var t := AnswerQuestion(stranded, kb, generate, userName, q).transcript;
    AnswerAppendsTwo(stranded, kb, generate, userName, q);
    assert t == log.transcript + [Message(unanswered, true), Message(q, true),
                                  Message(Personalize(userName, generate(kb, q)), false)];
    assert n % 2 == 0;
    assert t[n + 1].isUser != ((n + 1) % 2 == 0);
    LayoutStructure(t);
    assert PrefixAt(n + 1) == BotPrefix;
  }

  /** An expired key locks the user out for good: no run offers activation
      again, so from the first run at or after a time when the stored key is
      expired, every later run leaves the license files and the session as
      they were, apart from marking the session invalid. */
  lemma {:induction false} ExpiredKeyLocksOut(prior: Option<Session>, store: Storage, expiredAt: int,
                                              runs: seq<Widgets>, build: Builder, generate: Answerer)
    requires prior.Some? ==> Consistent(prior.value)
    requires CheckLicense(store, expiredAt).Expired?
    requires forall i :: 0 <= i < |runs| ==> expiredAt <= runs[i].now
    ensures var (s, st) := Replay(prior, store, runs, build, generate);
            var s0 := InitializeSessionState(prior);
            && st == store
            && (runs == [] ==> s == s0)
            && (runs != [] ==> s == s0.(apiKeyValid := false))
    decreases |runs|
  {
    if runs != [] {
      var r := Rerun(prior, store, runs[0], build, generate);
      ExpiryIsPermanent(store, expiredAt, runs[0].now);
      RerunLicenseGate(prior, store, runs[0], build, generate);
      ExpiredKeyLocksOut(Some(r.session), r.storage, expiredAt, runs[1..], build, generate);
    }
  }

  /** A sequence of runs, each starting from the session and the license
      files the previous one left. */
  function Replay(prior: Option<Session>, store: Storage, runs: seq<Widgets>,
                  build: Builder, generate: Answerer): (Session, Storage)
    requires prior.Some? ==> Consistent(prior.value)
    decreases |runs|
  {
    if runs == [] then (InitializeSessionState(prior), store)
    else
      var r := Rerun(prior, store, runs[0], build, generate);
      Replay(Some(r.session), r.storage, runs[1..], build, generate)
  }

  /** How many runs of a replay answer a question. */
  function AnsweredCount(prior: Option<Session>, store: Storage, runs: seq<Widgets>,
                         build: Builder, generate: Answerer): nat
    requires prior.Some? ==> Consistent(prior.value)
    decreases |runs|
  {
    if runs == [] then 0
    else
      var r := Rerun(prior, store, runs[0], build, generate);
      (if Answers(prior, store, runs[0]) then 1 else 0)
      + AnsweredCount(Some(r.session), r.storage, runs[1..], build, generate)
  }

  /** Over any sequence of runs the transcript only grows at its end, by two
      entries per answered question, the invariant holds throughout, and the
      window is always the last min(6, |transcript|) transcript entries. */
  lemma {:induction false} ReplayAppendOnly(prior: Option<Session>, store: Storage, runs: seq<Widgets>,
                                            build: Builder, generate: Answerer)
    requires prior.Some? ==> Wf(prior.value)
    ensures var (s, _) := Replay(prior, store, runs, build, generate);
            var t := InitializeSessionState(prior).log.transcript;
            && Wf(s)
            && |s.log.transcript| == |t| + 2 * AnsweredCount(prior, store, runs, build, generate)
            && s.log.transcript[..|t|] == t
            && s.log.window == LastN(s.log.transcript, WindowCapacity)
    decreases |runs|
  {
    if runs == [] {
      var t := InitializeSessionState(prior).log.transcript;
      assert t[..|t|] == t;
    } else {
      var r := Rerun(prior, store, runs[0], build, generate);
      RerunPreservesWf(prior, store, runs[0], build, generate);
      RerunTranscript(prior, store, runs[0], build, generate);
      ReplayAppendOnly(Some(r.session), r.storage, runs[1..], build, generate);
      var t := InitializeSessionState(prior).log.transcript;
      var mid := r.session.log.transcript;
      var (s, _) := Replay(prior, store, runs, build, generate);
      assert mid[..|t|] == t;
      assert s.log.transcript[..|mid|] == mid;
      assert s.log.transcript[..|t|] == mid[..|t|];
    }
  }
}
