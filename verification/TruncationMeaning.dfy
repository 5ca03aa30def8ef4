/** What is left of a conversation that is cut to a window. */
module TruncationMeaning {
  import opened Truncation

  /** One token for every four characters, and one at least; costs are summed message by message. */
  lemma CostIsTheSum(messages: seq<Message>, m: Message)
    ensures Cost([]) == 0
    ensures Cost(messages + [m]) == Cost(messages) + if |m.content| < 8 then 1 else |m.content| / 4
  {
    assert (messages + [m])[..|messages|] == messages;
  }

  /** The system messages, or the others, are those at these places, in order. */
  lemma {:induction false} PlacesOf(messages: seq<Message>, system: bool) returns (at: seq<nat>)
    ensures |at| == |System(messages, system)| && forall i :: 0 <= i < |at| ==> at[i] < |messages| && System(messages, system)[i] == messages[at[i]]
    ensures forall i, j :: 0 <= i < j < |at| ==> at[i] < at[j]
    ensures forall k: nat :: k in at <==> k < |messages| && (messages[k].role == "system" <==> system)
  {
    if messages == [] { return []; }
    var n := |messages| - 1;
    at := PlacesOf(messages[..n], system);
    var before := at;
    if (messages[n].role == "system") == system { at := at + [n]; }
    forall k: nat ensures k in at <==> k < |messages| && (messages[k].role == "system" <==> system) {
      assert k in before <==> k < n && (messages[..n][k].role == "system" <==> system);
    }
  }

  /** What the window leaves after the answer and a margin of 64 tokens, and 256 at least. */
  function Room(request: Request, window: int): int {
    if window - request.maxTokens - 64 < 256 then 256 else window - request.maxTokens - 64
  }

  /** Kept are all system messages and the longest tail of the others that fits beside them; no tail when the system messages
      take more than there is room for. If that is nothing at all, the request stays as it is. */
  lemma TruncatedIs(request: Request, window: int) returns (start: nat)
    ensures
      var system, rest, room := System(request.messages, true), System(request.messages, false), Room(request, window);
      && start <= |rest|
      && (if Cost(system) > room then start == |rest|
          else forall j :: 0 <= j <= |rest| ==> (Cost(system) + Cost(rest[j..]) <= room <==> j >= start))
      && Truncate(request, window).request == if system + rest[start..] == [] then request else request.(messages := system + rest[start..])
  {
    var system, rest := System(request.messages, true), System(request.messages, false);
    start := TailStart(rest, Cost(system), Budget(request, window));
    assert Budget(request, window) == Room(request, window);
    if Cost(system) > Room(request, window) {
      NoTailOverBudget(rest, Cost(system), Budget(request, window));
    } else {
      forall j | 0 <= j <= |rest| ensures Cost(system) + Cost(rest[j..]) <= Room(request, window) <==> j >= start {
        TailIsLongest(rest, Cost(system), Budget(request, window), j);
      }
    }
  }

  /** Reported are the characters that went, and how many messages were kept of how many; nothing when nothing was kept. */
  lemma ReportedIs(request: Request, window: int)
    ensures
      var truncated, kept := Truncate(request, window), KeptMessages(request, window);
      truncated.info == if kept == [] then Info(0, 0, 0)
                        else Info(Length(request.messages) - Length(truncated.request.messages), |truncated.request.messages|, |request.messages|)
  {
    LengthIsChars(request.messages);
    LengthIsChars(KeptMessages(request, window));
  }

  /** All characters, counted from the first message. */
  function Length(messages: seq<Message>): nat {
    if messages == [] then 0 else |messages[0].content| + Length(messages[1..])
  }

  lemma {:induction false} LengthOfMore(messages: seq<Message>, m: Message)
    ensures Length(messages + [m]) == Length(messages) + |m.content|
  {
    if messages == [] {
      assert [] + [m] == [m] && [m][1..] == [];
    } else {
      assert (messages + [m])[1..] == messages[1..] + [m];
      LengthOfMore(messages[1..], m);
    }
  }

  lemma {:induction false} LengthIsChars(messages: seq<Message>)
    ensures Length(messages) == Chars(messages)
  {
    if messages != [] {
      var n := |messages| - 1;
      LengthIsChars(messages[..n]);
      LengthOfMore(messages[..n], messages[n]);
      assert messages == messages[..n] + [messages[n]];
    }
  }

  /** The prompt: the messages one after the other, a newline between them. */
  function Prompt(messages: seq<Message>): string {
    if messages == [] then ""
    else if |messages| == 1 then messages[0].content
    else messages[0].content + "\n" + Prompt(messages[1..])
  }

  lemma {:induction false} PromptLength(messages: seq<Message>)
    ensures JoinedLength(messages) == |Prompt(messages)|
  {
    LengthIsChars(messages);
    if |messages| == 1 {
      assert messages[1..] == [];
    } else if |messages| > 1 {
      PromptLength(messages[1..]);
      LengthIsChars(messages[1..]);
    }
  }
}
