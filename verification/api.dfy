/**
 * The `/ask` endpoint: its ordered request guards, and the conversation
 * history text `generate_response` builds from the user's memory.
 */
module Api {
  import opened Wrappers
  import opened Text
  import opened Dates
  import opened Quota

  // ----- Request guards -------------------------------------------------------

  /** The longest question, in whitespace-separated words, that is answered. */
  const WordLimit: int := 60

  /** How the guards end: on to `generate_response`, or an HTTPException. */
  datatype Reply = Proceed | Refused(status: int, detail: string)

  /**
   * The checks of `ask`, in their order, after `can_user_ask` answered
   * `allowed`. Each guard fires exactly when every earlier one passed and its
   * own condition holds, and a request gets through exactly when all four pass.
   */
  function Guard(allowed: bool, user: string, question: string): (r: Reply)
    ensures r == Proceed <==> allowed && user != "" && question != "" && |Words(question)| <= WordLimit
    ensures r.Refused? ==> r.status in {429, 401, 400, 453}
    ensures r == Refused(429, "Prompt limit exceeded") <==> !allowed
    ensures r.Refused? && r.status == 401 <==> allowed && user == ""
    ensures r.Refused? && r.status == 400 <==> allowed && user != "" && question == ""
    ensures r.Refused? && r.status == 453 <==> allowed && user != "" && question != "" && |Words(question)| > WordLimit
  {
    if !allowed then Refused(429, "Prompt limit exceeded")
    else if user == "" then Refused(401, "No user logged in")
    else if question == "" then Refused(400, "No question provided")
    else if |Words(question)| > WordLimit then Refused(453, "Input word limit is 60")
    else Proceed
  }

  /** A question of nonempty words separated by single spaces passes the word guard exactly when it has at most 60 words. */
  lemma WordLimitBoundary(user: string, ws: seq<string>)
    requires user != "" && ws != []
    requires forall k :: 0 <= k < |ws| ==> ws[k] != [] && NoSpace(ws[k])
    ensures Guard(true, user, JoinWith(" ", ws)) == Proceed <==> |ws| <= WordLimit
  {
    WordsOfJoin(ws);
    assert Words(JoinWith(" ", ws)) != [];
  }

  /** A question of whitespace only is not empty and has no words, so it gets through to the model. */
  lemma BlankQuestionPasses(user: string, question: string)
    requires user != "" && question != "" && AllSpace(question)
    ensures Guard(true, user, question) == Proceed
  {
    assert StripLeft(question) == [];
  }

  /** `ask(request)` up to the call of `generate_response`: the quota is charged first, whatever follows. */
  method Ask(quota: PromptQuota, user: string, question: string, today: Date) returns (reply: Reply)
    requires quota.Valid() && ValidDate(today)
    modifies quota
    ensures quota.Valid()
    ensures quota.prompts == CheckQuota(old(quota.prompts), user, today).1
    ensures reply == Guard(CheckQuota(old(quota.prompts), user, today).0, user, question)
    ensures quota.file ==
      if CheckQuota(old(quota.prompts), user, today).0 && user != Whitelisted then Some(SaveTable(quota.prompts))
      else old(quota.file)
  {
    var allowed := quota.CanUserAsk(user, today);
    if !allowed {
      return Refused(429, "Prompt limit exceeded");
    }
    if user == "" {
      return Refused(401, "No user logged in");
    }
    if question == "" {
      return Refused(400, "No question provided");
    }
    var wordCount := |Words(question)|;
    if wordCount > WordLimit {
      return Refused(453, "Input word limit is 60");
    }
    return Proceed;
  }

  /**
   * Because the quota runs before the login check, a request with an empty
   * user id is refused either way but still uses up the quota of the id "".
   */
  lemma EmptyUserIsCharged(t: Table, question: string, today: Date)
    ensures var (allowed, t') := CheckQuota(t, "", today);
      Guard(allowed, "", question).Refused? &&
      (allowed ==> "" in t' && t'[""].lastDate == today && (t'[""].count == 1 || ("" in t && t'[""].count == t[""].count + 1)))
  {
  }

  // ----- Conversation history ---------------------------------------------------

  /** A message of the memory: `msg.type` and `msg.content`. */
  datatype Message = Message(kind: string, content: string)

  /** Only human and AI messages are written into the history. */
  predicate Kept(m: Message) {
    m.kind == "human" || m.kind == "ai"
  }

  /** The line a kept message becomes, without its newline: `User: ` or `Assistant: ` and then the content. */
  function Label(m: Message): (r: string)
    requires Kept(m)
    ensures m.kind == "human" ==> r == "User: " + m.content
    ensures m.kind == "ai" ==> r == "Assistant: " + m.content
    ensures |m.content| < |r| && r[|r| - |m.content|..] == m.content
    ensures Excludes('\n', r) <==> Excludes('\n', m.content)
  {
    (if m.kind == "human" then "User: " else "Assistant: ") + m.content
  }

  /** What one message adds to `history_text`: nothing for a message that is not kept, otherwise a line ending in a newline. */
  function Line(m: Message): (r: string)
    ensures r == "" <==> !Kept(m)
    ensures r != "" ==> r[|r| - 1] == '\n'
  {
    if Kept(m) then Label(m) + "\n" else ""
  }

  /** The value of `history_text` after the loop over `msgs`. */
  function HistoryText(msgs: seq<Message>): string {
    if msgs == [] then "" else Line(msgs[0]) + HistoryText(msgs[1..])
  }

  /** The loop of `generate_response` that formats the history. */
  method FormatHistory(messages: seq<Message>) returns (historyText: string)
    ensures historyText == HistoryText(messages)
  {
    historyText := "";
    for i := 0 to |messages|
      invariant historyText == HistoryText(messages[..i])
    {
      var msg := messages[i];
      HistoryStep(messages, i);
      if msg.kind == "human" {
        historyText := historyText + ("User: " + msg.content + "\n");
      } else if msg.kind == "ai" {
        historyText := historyText + ("Assistant: " + msg.content + "\n");
      }
    }
    assert messages[..|messages|] == messages;
  }

  /** One more iteration of the formatting loop appends the message's line. */
  lemma HistoryStep(messages: seq<Message>, i: nat)
    requires i < |messages|
    ensures HistoryText(messages[..i + 1]) == HistoryText(messages[..i]) + Line(messages[i])
  {
    HistoryAppend(messages[..i], [messages[i]]);
    assert messages[..i + 1] == messages[..i] + [messages[i]];
    assert HistoryText([messages[i]]) == Line(messages[i]) + HistoryText([]);
  }

  /** Formatting two runs of messages one after the other is formatting them together. */
  lemma {:induction false} HistoryAppend(a: seq<Message>, b: seq<Message>)
    ensures HistoryText(a + b) == HistoryText(a) + HistoryText(b)
    decreases |a|
  {
    if a != [] {
      assert (a + b)[0] == a[0];
      assert (a + b)[1..] == a[1..] + b;
      HistoryAppend(a[1..], b);
    } else {
      assert a + b == b;
    }
  }

  /** The history is empty exactly when no message is kept, and otherwise ends in a newline. */
  lemma {:induction false} HistoryShape(msgs: seq<Message>)
    ensures HistoryText(msgs) == "" <==> KeptOnly(msgs) == []
    ensures HistoryText(msgs) != "" ==> HistoryText(msgs)[|HistoryText(msgs)| - 1] == '\n'
    decreases |msgs|
  {
    if msgs != [] {
      HistoryShape(msgs[1..]);
      var line, rest := Line(msgs[0]), HistoryText(msgs[1..]);
      assert HistoryText(msgs) == line + rest;
      if rest != "" {
        assert (line + rest)[|line + rest| - 1] == rest[|rest| - 1];
      }
    }
  }

  /** The kept messages, in order. */
  function KeptOnly(msgs: seq<Message>): (ks: seq<Message>)
    ensures forall i :: 0 <= i < |ks| ==> Kept(ks[i])
  {
    if msgs == [] then []
    else (if Kept(msgs[0]) then [msgs[0]] else []) + KeptOnly(msgs[1..])
  }

  function Labels(ms: seq<Message>): (ls: seq<string>)
    requires forall i :: 0 <= i < |ms| ==> Kept(ms[i])
    ensures |ls| == |ms| && forall i :: 0 <= i < |ms| ==> ls[i] == Label(ms[i])
  {
    seq(|ms|, i requires 0 <= i < |ms| && Kept(ms[i]) => Label(ms[i]))
  }

  /**
   * When no message content holds a newline, the history is one line per
   * human or AI message, in order, each ending in a newline; other messages
   * leave no trace.
   */
  lemma {:induction false} HistoryLines(msgs: seq<Message>)
    requires forall i :: 0 <= i < |msgs| ==> Excludes('\n', msgs[i].content)
    ensures SplitOn('\n', HistoryText(msgs)) == Labels(KeptOnly(msgs)) + [""]
    decreases |msgs|
  {
    if msgs != [] {
      var m, rest := msgs[0], msgs[1..];
      HistoryLines(rest);
      if Kept(m) {
        KeptLine(m, rest);
      } else {
        assert HistoryText(msgs) == HistoryText(rest);
        assert KeptOnly(msgs) == KeptOnly(rest);
      }
    }
  }

  /** The step of `HistoryLines` for a kept first message. */
  lemma KeptLine(m: Message, rest: seq<Message>)
    requires Kept(m) && Excludes('\n', m.content)
    requires SplitOn('\n', HistoryText(rest)) == Labels(KeptOnly(rest)) + [""]
    ensures SplitOn('\n', HistoryText([m] + rest)) == Labels(KeptOnly([m] + rest)) + [""]
  {
    KeptHistory(m, rest);
    SplitNoSep('\n', Label(m), HistoryText(rest));
    KeptLabels(m, rest);
  }

  /** A kept first message puts its newline-free label and a newline before the rest of the history. */
  lemma KeptHistory(m: Message, rest: seq<Message>)
    requires Kept(m) && Excludes('\n', m.content)
    ensures HistoryText([m] + rest) == Label(m) + ['\n'] + HistoryText(rest)
  {
    var msgs := [m] + rest;
    assert msgs[0] == m && msgs[1..] == rest;
  }

  /** A kept first message contributes the first label. */
  lemma KeptLabels(m: Message, rest: seq<Message>)
    requires Kept(m)
    ensures Labels(KeptOnly([m] + rest)) == [Label(m)] + Labels(KeptOnly(rest))
  {
    var msgs := [m] + rest;
    assert msgs[0] == m && msgs[1..] == rest;
    assert KeptOnly(msgs) == [m] + KeptOnly(rest);
  }
}
