/**
 * Messages, tool calls, token estimates, and what it means for a history to be
 * a valid tool-calling transcript.
 */
module Conversation {
  import opened Prelude

  datatype Role = System | User | Assistant | Tool

  datatype ToolCall = ToolCall(id: string, name: string, arguments: string)

  /**
   * An absent `thinking` is the empty string and an absent `toolCalls` the empty
   * sequence: the source treats both alike.
   */
  datatype Message = Message(
    role: Role,
    content: string,
    thinking: string,
    toolCalls: seq<ToolCall>,
    toolCallId: Option<string>,
    toolName: Option<string>)

  function UserMessage(content: string): Message {
    Message(User, content, "", [], None, None)
  }

  /** The canonical text of a call: two calls with the same text are taken to be the same. */
  function CallKey(call: ToolCall): string {
    JoinedKey(call.name, call.arguments)
  }

  /** Calls of one tool, or of tools whose names hold no colon, are the same only with the same arguments. */
  lemma CallKeyTellsApart(a: ToolCall, b: ToolCall)
    requires a.name == b.name || a.arguments == b.arguments || (':' !in a.name && ':' !in b.name)
    ensures CallKey(a) == CallKey(b) <==> a.name == b.name && a.arguments == b.arguments
  {
    JoinedKeyTellsApart(a.name, a.arguments, b.name, b.arguments);
  }

  // ----- token estimates

  /** Four characters to a token, rounded up. */
  function TextTokens(s: string): nat {
    (|s| + 3) / 4
  }

  function CallTokens(calls: seq<ToolCall>): nat {
    if calls == [] then 0
    else CallTokens(calls[..|calls| - 1]) + 4 + TextTokens(calls[|calls| - 1].arguments)
  }

  function MessageTokens(m: Message): nat {
    4 + TextTokens(m.content) + TextTokens(m.thinking) + CallTokens(m.toolCalls)
  }

  /** The estimated size of a history: the sum over its messages. */
  function Tokens(h: seq<Message>): nat {
    if h == [] then 0 else Tokens(h[..|h| - 1]) + MessageTokens(h[|h| - 1])
  }

  lemma {:induction false} TokensConcat(a: seq<Message>, b: seq<Message>)
    ensures Tokens(a + b) == Tokens(a) + Tokens(b)
  {
    if b == [] {
      assert a + b == a;
    } else {
      assert (a + b)[..|a + b| - 1] == a + b[..|b| - 1];
      TokensConcat(a, b[..|b| - 1]);
    }
  }

  function ArgumentChars(calls: seq<ToolCall>): nat {
    if calls == [] then 0 else ArgumentChars(calls[..|calls| - 1]) + |calls[|calls| - 1].arguments|
  }

  /** All the characters of a history, and sixteen for every message and every call. */
  function Characters(h: seq<Message>): nat {
    if h == [] then 0
    else
      var m := h[|h| - 1];
      Characters(h[..|h| - 1]) + 16 + |m.content| + |m.thinking| + 16 * |m.toolCalls| + ArgumentChars(m.toolCalls)
  }

  /** The texts of a history: content and thinking of every message, and the arguments of every call. */
  function Texts(h: seq<Message>): nat {
    if h == [] then 0 else Texts(h[..|h| - 1]) + 2 + |h[|h| - 1].toolCalls|
  }

  lemma {:induction false} CallEstimateBounds(calls: seq<ToolCall>)
    ensures var chars := 16 * |calls| + ArgumentChars(calls);
            chars <= 4 * CallTokens(calls) <= chars + 3 * |calls|
  {
    if calls != [] {
      CallEstimateBounds(calls[..|calls| - 1]);
    }
  }

  /** The estimate never counts less than a token for four characters, and at most one too many for each text. */
  lemma {:induction false} EstimateBounds(h: seq<Message>)
    ensures Characters(h) <= 4 * Tokens(h) <= Characters(h) + 3 * Texts(h)
  {
    if h != [] {
      EstimateBounds(h[..|h| - 1]);
      CallEstimateBounds(h[|h| - 1].toolCalls);
    }
  }

  /** A longer suffix never costs less. */
  lemma TokensSuffixMonotone(h: seq<Message>, c: nat, d: nat)
    requires c <= d <= |h|
    ensures Tokens(h[c..]) == Tokens(h[c..d]) + Tokens(h[d..])
  {
    assert h[c..] == h[c..d] + h[d..];
    TokensConcat(h[c..d], h[d..]);
  }

  method EstimateTokens(messages: seq<Message>) returns (tokens: nat)
    ensures tokens == Tokens(messages)
  {
    tokens := 0;
    for i := 0 to |messages|
      invariant tokens == Tokens(messages[..i])
    {
      var msg := messages[i];
      tokens := tokens + 4 + TextTokens(msg.content) + TextTokens(msg.thinking);
      ghost var before := tokens;
      for k := 0 to |msg.toolCalls|
        invariant tokens == before + CallTokens(msg.toolCalls[..k])
      {
        tokens := tokens + 4 + TextTokens(msg.toolCalls[k].arguments);
        assert msg.toolCalls[..k + 1][..k] == msg.toolCalls[..k];
      }
      assert msg.toolCalls[..|msg.toolCalls|] == msg.toolCalls;
      assert messages[..i + 1][..i] == messages[..i];
    }
    assert messages[..|messages|] == messages;
  }

  // ----- pairing

  /** The calls an assistant turn waits to see answered. */
  function Calls(m: Message): seq<ToolCall> {
    if m.role == Assistant then m.toolCalls else []
  }

  ghost predicate AnswerTo(m: Message, call: ToolCall) {
    m.role == Tool && m.toolCallId == Some(call.id) && m.toolName == Some(call.name)
  }

  /** The calls of message `i` are answered right after it, one tool message a call, in call order. */
  ghost predicate Answered(h: seq<Message>, i: nat)
    requires i < |h|
  {
    && i + |Calls(h[i])| < |h|
    && forall k :: 0 <= k < |Calls(h[i])| ==> AnswerTo(h[i + 1 + k], Calls(h[i])[k])
  }

  lemma AnswerIsTool(h: seq<Message>, j: nat, i: nat)
    requires j < |h| && Answered(h, j) && j < i <= j + |Calls(h[j])|
    ensures i < |h| && h[i].role == Tool
  {
    assert AnswerTo(h[j + 1 + (i - j - 1)], Calls(h[j])[i - j - 1]);
  }

  /** Message `i`, if a tool message, lies in the run of answers of some assistant turn. */
  ghost predicate Attributed(h: seq<Message>, i: nat)
    requires i < |h|
  {
    h[i].role == Tool ==> exists j: nat :: j < i <= j + |Calls(h[j])|
  }

  /** A valid tool-calling transcript: no unanswered call and no stray tool message. */
  ghost predicate Paired(h: seq<Message>) {
    forall i: nat :: i < |h| ==> Answered(h, i) && Attributed(h, i)
  }

  lemma PairedConcat(a: seq<Message>, b: seq<Message>)
    requires Paired(a) && Paired(b)
    ensures Paired(a + b)
  {
    var h := a + b;
    forall i: nat | i < |h|
      ensures Answered(h, i) && Attributed(h, i)
    {
      if i < |a| {
        assert Answered(a, i) && Attributed(a, i);
        if a[i].role == Tool {
          var j: nat :| j < i <= j + |Calls(a[j])|;
          assert h[j] == a[j];
        }
      } else {
        assert h[i] == b[i - |a|] && Answered(b, i - |a|) && Attributed(b, i - |a|);
        forall k | 0 <= k < |Calls(h[i])|
          ensures AnswerTo(h[i + 1 + k], Calls(h[i])[k])
        {
          assert AnswerTo(b[i - |a| + 1 + k], Calls(b[i - |a|])[k]);
        }
        if h[i].role == Tool {
          var j: nat :| j < i - |a| <= j + |Calls(b[j])|;
          assert h[|a| + j] == b[j];
        }
      }
    }
  }

  /** Cutting a transcript before a message that is not a tool message leaves two transcripts. */
  lemma PairedSplit(h: seq<Message>, c: nat)
    requires Paired(h) && c <= |h|
    requires c < |h| ==> h[c].role != Tool
    ensures Paired(h[..c]) && Paired(h[c..])
  {
    var a, b := h[..c], h[c..];
    forall i: nat | i < c
      ensures Answered(a, i) && Attributed(a, i)
    {
      assert Answered(h, i) && Attributed(h, i);
      if i + |Calls(h[i])| >= c && c < |h| {
        AnswerIsTool(h, i, c);
      }
      if a[i].role == Tool {
        var j: nat :| j < i <= j + |Calls(h[j])|;
        assert a[j] == h[j];
      }
    }
    forall i: nat | i < |b|
      ensures Answered(b, i) && Attributed(b, i)
    {
      assert b[i] == h[c + i] && Answered(h, c + i) && Attributed(h, c + i);
      forall k | 0 <= k < |Calls(b[i])|
        ensures AnswerTo(b[i + 1 + k], Calls(b[i])[k])
      {
        assert AnswerTo(h[c + i + 1 + k], Calls(h[c + i])[k]);
      }
      if b[i].role == Tool {
        var j: nat :| j < c + i <= j + |Calls(h[j])|;
        if j < c {
          assert Answered(h, j);
          AnswerIsTool(h, j, c);
          assert false;
        }
        assert b[j - c] == h[j];
      }
    }
  }

  /** Cutting inside a run of answers, and going on with anything but a tool message, is never a transcript. */
  lemma CutInsideTurnUnpaired(h: seq<Message>, c: nat, next: Message, rest: seq<Message>)
    requires Paired(h) && c < |h| && h[c].role == Tool
    requires next.role != Tool
    ensures !Paired(h[..c] + [next] + rest)
  {
    assert Attributed(h, c);
    var j: nat :| j < c <= j + |Calls(h[j])|;
    var cut := h[..c] + [next] + rest;
    if Paired(cut) {
      assert cut[j] == h[j] && Answered(cut, j);
      AnswerIsTool(cut, j, c);
    }
  }

  /** Two histories that differ at most in message contents. */
  ghost predicate SameShape(a: seq<Message>, b: seq<Message>) {
    |a| == |b| && forall i :: 0 <= i < |a| ==> a[i] == b[i].(content := a[i].content)
  }

  lemma SameShapePaired(a: seq<Message>, b: seq<Message>)
    requires SameShape(a, b) && Paired(a)
    ensures Paired(b)
  {
    forall i: nat | i < |b|
      ensures Answered(b, i) && Attributed(b, i)
    {
      assert Answered(a, i) && Attributed(a, i);
      forall k | 0 <= k < |Calls(b[i])|
        ensures AnswerTo(b[i + 1 + k], Calls(b[i])[k])
      {
        assert AnswerTo(a[i + 1 + k], Calls(a[i])[k]);
      }
      if b[i].role == Tool {
        var j: nat :| j < i <= j + |Calls(a[j])|;
        assert Calls(b[j]) == Calls(a[j]);
      }
    }
  }
}
