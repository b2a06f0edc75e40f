/** The chat page (src/pages/Snuggie.tsx): the transcript, the reply chosen by
    the score and the emoji shown beside a scored message. */
module Snuggie {
  import opened Types

  datatype Sender = UserSender | SnuggieSender

  /** The result of the mock analysis: a score in [-1, 1] and a magnitude. */
  datatype Sentiment = Sentiment(score: real, magnitude: real)

  datatype Message = Message(id: string, text: string, sender: Sender, sentiment: Option<Sentiment>)

  const WelcomeText: string := "Hi! I'm Snuggie, your emotional support companion. How are you feeling today?"
  const PositiveReply: string := "That's wonderful! I'm so happy to hear you're feeling positive. Would you like to tell me more about what's making you feel this way?"
  const NegativeReply: string := "I hear you, and it's okay to feel this way. Would you like to talk more about what's troubling you? I'm here to listen."
  const NeutralReply: string := "Thank you for sharing. Would you like to explore those feelings a bit more? I'm here to chat about whatever's on your mind."

  /** A character `String.prototype.trim` removes: the ECMAScript white space
      and line terminator characters. */
  predicate IsJsWhitespace(c: char)
  {
    var n := c as int;
    || 0x09 <= n <= 0x0D      // tab, line feed, vertical tab, form feed, carriage return
    || n == 0x20 || n == 0xA0 // space, no-break space
    || n == 0x1680
    || 0x2000 <= n <= 0x200A
    || n == 0x2028 || n == 0x2029 // line and paragraph separators
    || n == 0x202F || n == 0x205F || n == 0x3000
    || n == 0xFEFF            // byte order mark
  }

  /** `text.trimStart()`: the leading white space removed. */
  function TrimStart(text: string): (r: string)
    ensures r == [] || !IsJsWhitespace(r[0])
    ensures r == [] <==> AllWhitespace(text)
  {
    if text != [] && IsJsWhitespace(text[0]) then TrimStart(text[1..]) else text
  }

  /** `text.trimEnd()`: the trailing white space removed. */
  function TrimEnd(text: string): (r: string)
    ensures r == [] || !IsJsWhitespace(r[|r| - 1])
    ensures r == [] <==> AllWhitespace(text)
  {
    if text != [] && IsJsWhitespace(text[|text| - 1]) then TrimEnd(text[..|text| - 1]) else text
  }

  /** `trimStart` removes a prefix made of white space only: what is left is a
      suffix of the text. */
  lemma {:induction false} TrimStartIsSuffix(text: string)
    ensures |TrimStart(text)| <= |text| && text[|text| - |TrimStart(text)|..] == TrimStart(text)
    ensures AllWhitespace(text[..|text| - |TrimStart(text)|])
  {
    if text != [] && IsJsWhitespace(text[0]) {
      TrimStartIsSuffix(text[1..]);
      var n := |text| - |TrimStart(text)|;
      forall i | 0 < i < n
        ensures IsJsWhitespace(text[i])
      {
        assert text[i] == text[1..][..n - 1][i - 1];
      }
    }
  }

  /** `trimEnd` removes a suffix made of white space only: what is left is a
      prefix of the text. */
  lemma {:induction false} TrimEndIsPrefix(text: string)
    ensures |TrimEnd(text)| <= |text| && text[..|TrimEnd(text)|] == TrimEnd(text)
    ensures AllWhitespace(text[|TrimEnd(text)|..])
  {
    if text != [] && IsJsWhitespace(text[|text| - 1]) {
      TrimEndIsPrefix(text[..|text| - 1]);
      var n := |TrimEnd(text)|;
      forall i | n <= i < |text| - 1
        ensures IsJsWhitespace(text[i])
      {
        assert text[i] == text[..|text| - 1][n..][i - n];
      }
    }
  }

  /** `text.trim()`. */
  function Trim(text: string): string
  {
    TrimEnd(TrimStart(text))
  }

  predicate AllWhitespace(text: string)
  {
    forall i :: 0 <= i < |text| ==> IsJsWhitespace(text[i])
  }

  /** `!text.trim()`: the trimmed text is empty, which happens exactly when the
      text is empty or white space only. */
  predicate IsBlank(text: string)
    ensures IsBlank(text) <==> AllWhitespace(text)
  {
    Trim(text) == []
  }

  /** The reply to a scored message. */
  function ReplyFor(score: real): (reply: string)
    ensures score > 0.3 ==> reply == PositiveReply
    ensures score < -0.3 ==> reply == NegativeReply
    ensures -0.3 <= score <= 0.3 ==> reply == NeutralReply
  {
    if score > 0.3 then PositiveReply
    else if score < -0.3 then NegativeReply
    else NeutralReply
  }

  /** `getSentimentEmoji`: four bands that cover every score. */
  function SentimentEmoji(score: real): (e: string)
    ensures e == "😊" <==> score > 0.5
    ensures e == "🙂" <==> 0.0 < score <= 0.5
    ensures e == "😐" <==> -0.5 < score <= 0.0
    ensures e == "😔" <==> score <= -0.5
  {
    if score > 0.5 then "😊"
    else if score > 0.0 then "🙂"
    else if score > -0.5 then "😐"
    else "😔"
  }

  /** The replies from gloomiest to brightest. */
  function ReplyRank(reply: string): nat
  {
    if reply == NegativeReply then 0 else if reply == NeutralReply then 1 else 2
  }

  /** A higher score never gets a gloomier reply. */
  lemma ReplyMonotone(a: real, b: real)
    requires a <= b
    ensures ReplyRank(ReplyFor(a)) <= ReplyRank(ReplyFor(b))
  {
  }

  /** The list after `prev.map(msg => msg.id === id ? { ...msg, sentiment } : msg)`:
      every message keeps its place, id, text and sender; those with the id
      carry the sentiment, the others are untouched. */
  function AttachSentiment(messages: seq<Message>, id: string, sentiment: Sentiment): (r: seq<Message>)
    ensures |r| == |messages|
    ensures forall i :: 0 <= i < |r| ==>
      r[i].id == messages[i].id && r[i].text == messages[i].text && r[i].sender == messages[i].sender
    ensures forall i :: 0 <= i < |r| && messages[i].id == id ==> r[i].sentiment == Some(sentiment)
    ensures forall i :: 0 <= i < |r| && messages[i].id != id ==> r[i] == messages[i]
  {
    seq(|messages|, i requires 0 <= i < |messages| =>
      if messages[i].id == id then messages[i].(sentiment := Some(sentiment)) else messages[i])
  }

  /** With a fresh id for the newest message, attaching changes that message only. */
  lemma AttachToFreshLast(prev: seq<Message>, m: Message, sentiment: Sentiment)
    requires forall i :: 0 <= i < |prev| ==> prev[i].id != m.id
    ensures AttachSentiment(prev + [m], m.id, sentiment) == prev + [m.(sentiment := Some(sentiment))]
  {
    var r := AttachSentiment(prev + [m], m.id, sentiment);
    var expected := prev + [m.(sentiment := Some(sentiment))];
    assert forall i :: 0 <= i < |prev| ==> (prev + [m])[i] == prev[i];
    assert forall i :: 0 <= i < |r| ==> r[i] == expected[i];
  }

  /** Attaching the same sentiment twice is attaching it once. */
  lemma AttachIdempotent(messages: seq<Message>, id: string, sentiment: Sentiment)
    ensures AttachSentiment(AttachSentiment(messages, id, sentiment), id, sentiment)
            == AttachSentiment(messages, id, sentiment)
  {
  }

  class Chat {
    var messages: seq<Message>
    var inputText: string
    var isTyping: bool

    /** The page after mount: the welcome effect has put its one message in. */
    constructor ()
      ensures messages == [Message("1", WelcomeText, SnuggieSender, None)]
      ensures inputText == [] && !isTyping
    {
      messages := [Message("1", WelcomeText, SnuggieSender, None)];
      inputText := [];
      isTyping := false;
    }

    /** `handleSubmit`. `userId` and `replyId` are the clock-based ids; `outcome`
        is the analysis result, `None` when the analysis fails. A blank input
        changes nothing. Otherwise the user message is appended and the input
        cleared; a scored message gets its sentiment and a reply follows; in
        either case typing is off at the end. */
    method HandleSubmit(userId: string, replyId: string, outcome: Option<Sentiment>)
      modifies this
      ensures IsBlank(old(inputText)) ==>
        messages == old(messages) && inputText == old(inputText) && isTyping == old(isTyping)
      ensures !IsBlank(old(inputText)) ==> inputText == [] && !isTyping
      ensures !IsBlank(old(inputText)) && outcome.None? ==>
        messages == old(messages) + [Message(userId, old(inputText), UserSender, None)]
      ensures !IsBlank(old(inputText)) && outcome.Some? ==>
        messages == AttachSentiment(old(messages) + [Message(userId, old(inputText), UserSender, None)], userId, outcome.value)
                    + [Message(replyId, ReplyFor(outcome.value.score), SnuggieSender, None)]
    {
      if IsBlank(inputText) {
        return;
      }
      var userMessage := Message(userId, inputText, UserSender, None);
      inputText := [];
      isTyping := true;
      if outcome.None? {
        messages := messages + [userMessage];
      } else {
        var reply := Message(replyId, ReplyFor(outcome.value.score), SnuggieSender, None);
        messages := AttachSentiment(messages + [userMessage], userId, outcome.value) + [reply];
      }
      isTyping := false;
    }
  }
}
