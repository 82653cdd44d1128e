/**
 * The layout of the exported chat transcript: one leading spacer, then one
 * block per even transcript position, holding a "You: " paragraph, a
 * "Bot: " paragraph when a partner message follows, and a spacer.
 * Rendering the layout into PDF bytes is left to the document renderer.
 */
module Export {
  import opened Conversation

  /** One element of the document story. Spacer heights are in tenths of an
      inch. */
  datatype Item = Paragraph(text: string) | Spacer(tenths: nat)

  const LeadSpace: nat := 5   // the 0.5 inch spacer before the first block
  const GapSpace: nat := 2    // the 0.2 inch spacer after each block
  const UserPrefix := "You: "
  const BotPrefix := "Bot: "

  /** The prefix chosen for transcript position k: by position, not by the
      message's own user flag. */
  function PrefixAt(k: nat): string
  {
    if k % 2 == 0 then UserPrefix else BotPrefix
  }

  /** The block for the transcript entries from position i: the pair at
      i and i + 1, or the entry at i alone when it is the last one. */
  function Block(t: seq<Message>, i: nat): seq<Item>
    requires i < |t|
  {
    if i + 1 < |t| then
      [Paragraph(UserPrefix + t[i].text), Paragraph(BotPrefix + t[i + 1].text), Spacer(GapSpace)]
    else
      [Paragraph(UserPrefix + t[i].text), Spacer(GapSpace)]
  }

  /** The blocks of a transcript, front to back. */
  function Blocks(t: seq<Message>): seq<Item>
    decreases |t|
  {
    if |t| == 0 then []
    else if |t| == 1 then Block(t, 0)
    else Block(t, 0) + Blocks(t[2..])
  }

  /** The whole story: the leading spacer followed by the blocks. */
  function Layout(t: seq<Message>): seq<Item>
  {
    [Spacer(LeadSpace)] + Blocks(t)
  }

  /** Appending a message, or a pair, after a transcript of even length
      appends exactly its block. */
  lemma {:induction false} BlocksAppend(t: seq<Message>, tail: seq<Message>)
    requires |t| % 2 == 0
    requires 1 <= |tail| <= 2
    ensures Blocks(t + tail) == Blocks(t) + Block(tail, 0)
    decreases |t|
  {
    if |t| == 0 {
      assert t + tail == tail;
    } else {
      assert (t + tail)[2..] == t[2..] + tail;
      BlocksAppend(t[2..], tail);
      assert Block(t + tail, 0) == Block(t, 0);
    }
  }

  /** The smallest even number not below n: the end of the index range the
      export loop covers once it has passed position n. */
  function RoundUpEven(n: nat): nat
  {
    if n % 2 == 0 then n else n + 1
  }

  /** The loop of `export_chat_to_pdf`: a leading spacer, then for each even
      position i a "You: " paragraph, a "Bot: " paragraph when position i + 1
      exists, and a spacer. */
  method BuildStory(t: seq<Message>) returns (story: seq<Item>)
    ensures story == Layout(t)
  {
    story := [Spacer(LeadSpace)];
    var i := 0;
    while i < |t|
      invariant i % 2 == 0 && i <= RoundUpEven(|t|)
      invariant i <= |t| ==> story == Layout(t[..i])
      invariant i > |t| ==> story == Layout(t)
    {
      var userText := UserPrefix + t[i].text;
      story := story + [Paragraph(userText)];
      if i + 1 < |t| {
        var botText := BotPrefix + t[i + 1].text;
        story := story + [Paragraph(botText)];
      }
      story := story + [Spacer(GapSpace)];
      ghost var upTo := if i + 2 <= |t| then i + 2 else |t|;
      assert t[..upTo] == t[..i] + t[i..upTo];
      BlocksAppend(t[..i], t[i..upTo]);
      assert Block(t[i..upTo], 0) == Block(t, i);
      assert story == Layout(t[..upTo]);
      assert t[..|t|] == t;
      i := i + 2;
    }
    assert i == |t| ==> t[..i] == t;
  }

  /** The paragraph texts of a story, in order, with the spacers dropped. */
  function Paragraphs(items: seq<Item>): seq<string>
  {
    if items == [] then []
    else if items[0].Paragraph? then [items[0].text] + Paragraphs(items[1..])
    else Paragraphs(items[1..])
  }

  /** The number of spacers in a story. */
  function Spacers(items: seq<Item>): nat
  {
    if items == [] then 0
    else (if items[0].Spacer? then 1 else 0) + Spacers(items[1..])
  }

  lemma {:induction false} ParagraphsAppend(a: seq<Item>, b: seq<Item>)
    ensures Paragraphs(a + b) == Paragraphs(a) + Paragraphs(b)
    ensures Spacers(a + b) == Spacers(a) + Spacers(b)
    decreases |a|
  {
    if a == [] {
      assert a + b == b;
    } else {
      assert (a + b)[1..] == a[1..] + b;
      ParagraphsAppend(a[1..], b);
    }
  }

  /** What one block contributes: its one or two paragraphs and one spacer. */
  lemma BlockContents(t: seq<Message>, i: nat)
    requires i < |t|
    ensures Paragraphs(Block(t, i)) == if i + 1 < |t| then [UserPrefix + t[i].text, BotPrefix + t[i + 1].text]
                                       else [UserPrefix + t[i].text]
    ensures Spacers(Block(t, i)) == 1
  {
    var gap := [Spacer(GapSpace)];
    assert gap[1..] == [];
    assert Spacers(gap[1..]) == 0;
    assert Spacers(gap) == (if gap[0].Spacer? then 1 else 0) + Spacers(gap[1..]);
    assert Paragraphs(gap) == [] && Spacers(gap) == 1;
    var b := Block(t, i);
    if i + 1 < |t| {
      assert b[1..] == [Paragraph(BotPrefix + t[i + 1].text)] + gap;
      assert b[1..][1..] == gap;
      assert Paragraphs(b[1..]) == [BotPrefix + t[i + 1].text] && Spacers(b[1..]) == 1;
    } else {
      assert b[1..] == gap;
    }
  }

  /** Export block structure: the k-th paragraph is the k-th transcript
      message with the prefix of its position, and there is one spacer per
      block plus the leading one, i.e. 1 + ceil(n / 2). */
  lemma {:induction false} BlocksStructure(t: seq<Message>)
    ensures |Paragraphs(Blocks(t))| == |t|
    ensures forall k :: 0 <= k < |t| ==> Paragraphs(Blocks(t))[k] == PrefixAt(k) + t[k].text
    ensures Spacers(Blocks(t)) == (|t| + 1) / 2
    ensures |Blocks(t)| == |t| + (|t| + 1) / 2
    decreases |t|
  {
    if |t| == 1 {
      BlockContents(t, 0);
    } else if |t| >= 2 {
      BlocksStructure(t[2..]);
      BlockContents(t, 0);
      ParagraphsAppend(Block(t, 0), Blocks(t[2..]));
      var ps := Paragraphs(Blocks(t));
      var rest := Paragraphs(Blocks(t[2..]));
      assert ps == [UserPrefix + t[0].text, BotPrefix + t[1].text] + rest;
      forall k | 0 <= k < |t|
        ensures ps[k] == PrefixAt(k) + t[k].text
      {
        if k >= 2 {
          assert ps[k] == rest[k - 2];
          assert t[2..][k - 2] == t[k];
        }
      }
    }
  }

  lemma LayoutStructure(t: seq<Message>)
    ensures |Paragraphs(Layout(t))| == |t|
    ensures forall k :: 0 <= k < |t| ==> Paragraphs(Layout(t))[k] == PrefixAt(k) + t[k].text
    ensures Spacers(Layout(t)) == 1 + (|t| + 1) / 2
    ensures |Layout(t)| == 1 + |t| + (|t| + 1) / 2
  {
    BlocksStructure(t);
    var lead := [Spacer(LeadSpace)];
    ParagraphsAppend(lead, Blocks(t));
    assert lead[1..] == [];
  }

  /** A paragraph with its "You: " or "Bot: " prefix removed; both prefixes
      have the same length, so one cut serves both. */
  function Unprefix(p: string): string
  {
    if |p| >= |UserPrefix| then p[|UserPrefix|..] else p
  }

  function UnprefixAll(ps: seq<string>): (r: seq<string>)
    ensures |r| == |ps|
    ensures forall k :: 0 <= k < |ps| ==> r[k] == Unprefix(ps[k])
  {
    if ps == [] then [] else [Unprefix(ps[0])] + UnprefixAll(ps[1..])
  }

  function Texts(t: seq<Message>): (r: seq<string>)
    ensures |r| == |t|
    ensures forall k :: 0 <= k < |t| ==> r[k] == t[k].text
  {
    if t == [] then [] else [t[0].text] + Texts(t[1..])
  }

  /** Export content and order: with the prefixes removed, the paragraphs
      of the export are the transcript messages in their original order. */
  lemma ExportRecoversTranscript(t: seq<Message>)
    ensures UnprefixAll(Paragraphs(Layout(t))) == Texts(t)
  {
    LayoutStructure(t);
    var ps := Paragraphs(Layout(t));
    forall k | 0 <= k < |t|
      ensures Unprefix(ps[k]) == t[k].text
    {
      assert ps[k] == PrefixAt(k) + t[k].text;
      assert |PrefixAt(k)| == |UserPrefix|;
      assert (PrefixAt(k) + t[k].text)[|UserPrefix|..] == t[k].text;
    }
  }

  /** The layout depends only on the message texts: two transcripts with the
      same texts, whatever their user flags, export identically. */
  lemma {:induction false} BlocksIgnoreUserFlag(t: seq<Message>, u: seq<Message>)
    requires Texts(t) == Texts(u)
    ensures Blocks(t) == Blocks(u)
    decreases |t|
  {
    assert forall k :: 0 <= k < |t| ==> t[k].text == Texts(t)[k] == u[k].text;
    if |t| >= 2 {
      assert Texts(t[2..]) == Texts(t)[2..] == Texts(u)[2..] == Texts(u[2..]);
      BlocksIgnoreUserFlag(t[2..], u[2..]);
    }
  }

  lemma LayoutIgnoresUserFlag(t: seq<Message>, u: seq<Message>)
    requires Texts(t) == Texts(u)
    ensures Layout(t) == Layout(u)
  {
    BlocksIgnoreUserFlag(t, u);
  }

  /** Answering one more question appends exactly one full block to the
      export of a paired transcript. */
  lemma LayoutAppendPair(t: seq<Message>, q: Message, a: Message)
    requires |t| % 2 == 0
    ensures Layout(t + [q, a])
            == Layout(t) + [Paragraph(UserPrefix + q.text), Paragraph(BotPrefix + a.text), Spacer(GapSpace)]
  {
    BlocksAppend(t, [q, a]);
  }

  /** An unpaired trailing question is rendered alone: its "You: " paragraph
      is followed directly by the block spacer, with no "Bot: " line. */
  lemma LayoutTrailingQuestion(t: seq<Message>, q: Message)
    requires |t| % 2 == 0
    ensures Layout(t + [q]) == Layout(t) + [Paragraph(UserPrefix + q.text), Spacer(GapSpace)]
  {
    BlocksAppend(t, [q]);
  }

  /** The three-message example: two paired lines and one unpaired line. */
  lemma ExportThreeMessages()
    ensures Layout([Message("q1", true), Message("a1", false), Message("q2", true)])
            == [Spacer(LeadSpace),
                Paragraph("You: q1"), Paragraph("Bot: a1"), Spacer(GapSpace),
                Paragraph("You: q2"), Spacer(GapSpace)]
  {
    var t := [Message("q1", true), Message("a1", false), Message("q2", true)];
    assert t[2..] == [Message("q2", true)];
    assert UserPrefix + "q1" == "You: q1";
    assert BotPrefix + "a1" == "Bot: a1";
    assert UserPrefix + "q2" == "You: q2";
  }
}
