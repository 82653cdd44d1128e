/**
 * The conversation log of one session: a display window holding at most six
 * messages (a `deque(maxlen=6)`, evicting its oldest entry when full) and an
 * append-only transcript of every message. Every message goes to both.
 */
module Conversation {
  import opened Text
  import opened Collaborators

  datatype Message = Message(text: string, isUser: bool)

  /** The `maxlen` of the display window. */
  const WindowCapacity: nat := 6

  /** The last `min(n, |s|)` elements of `s`, in order. */
  function LastN<T>(s: seq<T>, n: nat): seq<T>
  {
    if |s| <= n then s else s[|s| - n..]
  }

  datatype Log = Log(window: seq<Message>, transcript: seq<Message>)

  /** The window shows exactly the most recent transcript entries. */
  predicate WindowMatches(log: Log)
  {
    log.window == LastN(log.transcript, WindowCapacity)
  }

  const EmptyLog := Log([], [])

  /** `append` on a deque with `maxlen` = 6: when full, the oldest entry is
      dropped; the result is what remains of `w + [m]` after FIFO eviction. */
  function BoundedAppend(w: seq<Message>, m: Message): (r: seq<Message>)
    requires |w| <= WindowCapacity
    ensures |r| <= WindowCapacity
    ensures r == LastN(w + [m], WindowCapacity)
  {
    if |w| < WindowCapacity then w + [m] else w[1..] + [m]
  }

  /** Taking the last n of a sequence already cut to its last n, extended by
      one element, is the same as cutting the extended original. */
  lemma LastNAppend<T>(s: seq<T>, x: T, n: nat)
    ensures LastN(LastN(s, n) + [x], n) == LastN(s + [x], n)
  {
    if |s| > n {
      assert LastN(s, n) + [x] == (s + [x])[|s| - n..];
    }
  }

  /** Appends one message to both the window and the transcript. */
  function Record(log: Log, m: Message): (r: Log)
    requires |log.window| <= WindowCapacity
    ensures r.transcript == log.transcript + [m]
    ensures |r.window| <= WindowCapacity
    ensures |r.window| > 0 && r.window[|r.window| - 1] == m
    ensures WindowMatches(log) ==> WindowMatches(r)
  {
    var r := Log(BoundedAppend(log.window, m), log.transcript + [m]);
    LastNAppend(log.transcript, m, WindowCapacity);
    r
  }

  /** The reply stored for a generated response: with a greeting when a user
      name is set (Python-truthy), otherwise the response itself. */
  function Personalize(userName: Option<string>, response: string): (reply: string)
    ensures Truthy(userName) ==> reply == "Hello " + userName.value + ", " + response
    ensures !Truthy(userName) ==> reply == response
  {
    if Truthy(userName) then "Hello " + userName.value + ", " + response else response
  }

  /** `answer_question`: records the question as a user message, asks the
      collaborator for an answer over the knowledge base, and records the
      (possibly greeted) answer as a bot message. */
  function AnswerQuestion(log: Log, kb: KnowledgeBase, generate: Answerer,
                          userName: Option<string>, question: string): (r: Log)
    requires |log.window| <= WindowCapacity
    ensures |r.transcript| == |log.transcript| + 2
    ensures r.transcript[..|log.transcript|] == log.transcript
    ensures r.transcript[|log.transcript|] == Message(question, true)
    ensures Truthy(userName) ==>
              r.transcript[|log.transcript| + 1]
              == Message("Hello " + userName.value + ", " + generate(kb, question), false)
    ensures !Truthy(userName) ==>
              r.transcript[|log.transcript| + 1] == Message(generate(kb, question), false)
    ensures |r.window| <= WindowCapacity
    ensures WindowMatches(log) ==> WindowMatches(r)
  {
    var asked := Record(log, Message(question, true));
    var response := Personalize(userName, generate(kb, question));
    Record(asked, Message(response, false))
  }

  /** The transcript after an answer is the old one plus exactly the
      question and the stored reply, in that order. */
  lemma AnswerAppendsTwo(log: Log, kb: KnowledgeBase, generate: Answerer,
                         userName: Option<string>, question: string)
    requires |log.window| <= WindowCapacity
    ensures AnswerQuestion(log, kb, generate, userName, question).transcript
            == log.transcript + [Message(question, true),
                                 Message(Personalize(userName, generate(kb, question)), false)]
  {
    var u := AnswerQuestion(log, kb, generate, userName, question).transcript;
    assert u == u[..|log.transcript|] + [u[|log.transcript|], u[|log.transcript| + 1]];
  }

  /** The transcript is a sequence of question/answer pairs: user messages
      at even positions, replies at odd ones. */
  predicate Paired(t: seq<Message>)
  {
    && |t| % 2 == 0
    && forall k :: 0 <= k < |t| ==> t[k].isUser == (k % 2 == 0)
  }

  /** Adding a user message and then a reply keeps a transcript paired. */
  lemma PairedExtend(t: seq<Message>, q: Message, a: Message)
    requires Paired(t) && q.isUser && !a.isUser
    ensures Paired(t + [q, a])
  {
  }

  /** Answering keeps the transcript paired: the question lands at an even
      position and the reply right after it. */
  lemma AnswerKeepsPairs(log: Log, kb: KnowledgeBase, generate: Answerer,
                         userName: Option<string>, question: string)
    requires |log.window| <= WindowCapacity
    requires Paired(log.transcript)
    ensures Paired(AnswerQuestion(log, kb, generate, userName, question).transcript)
  {
    AnswerAppendsTwo(log, kb, generate, userName, question);
    PairedExtend(log.transcript, Message(question, true),
                 Message(Personalize(userName, generate(kb, question)), false));
  }

  /** Records a whole sequence of messages one after the other. */
  function RecordAll(log: Log, ms: seq<Message>): Log
    requires |log.window| <= WindowCapacity
    decreases |ms|
  {
    if ms == [] then log else RecordAll(Record(log, ms[0]), ms[1..])
  }

  /** From any log whose window already matches its transcript, after any
      sequence of appends the transcript is the old one followed by exactly
      what was appended, and the window is its last `min(6, |transcript|)`
      entries in order. */
  lemma {:induction false} WindowIsTranscriptSuffix(log: Log, ms: seq<Message>)
    requires |log.window| <= WindowCapacity
    requires WindowMatches(log)
    ensures RecordAll(log, ms).transcript == log.transcript + ms
    ensures WindowMatches(RecordAll(log, ms))
    ensures |RecordAll(log, ms).window| == if |log.transcript| + |ms| < WindowCapacity
                                           then |log.transcript| + |ms| else WindowCapacity
    decreases |ms|
  {
    if ms != [] {
      var next := Record(log, ms[0]);
      WindowIsTranscriptSuffix(next, ms[1..]);
      assert next.transcript + ms[1..] == log.transcript + ms;
    }
  }

  /** Strict FIFO eviction on an example: once eight messages (four
      question/answer pairs) have been appended, the window holds messages
      3 to 8, counting from 1, in order. */
  lemma EvictionIsFifo(t: seq<Message>)
    requires |t| == 8
    ensures RecordAll(EmptyLog, t).window == t[2..]
  {
    WindowIsTranscriptSuffix(EmptyLog, t);
  }
}
