/**
  The assistant (src/services/assistant.js): starting a chat, the message
  bookkeeping of a prompt, and the clean-up of the title the model
  proposes. The model's answers (routing, text, image, title) are outside
  the model; the title reply is a parameter.
 */
module Assistant {
  import opened Wrappers
  import opened JsString
  import opened Chats

  /** What newChat leaves behind: the current chat, the chats of the store, whether the store was saved. */
  datatype Session = Session(chat: Chat, chats: seq<Chat>, saved: bool)

  /** `new Chat(title)` with the default instructions as its system message. */
  function FreshChat(uuid: string, title: Option<string>, instructions: string): (c: Chat)
    ensures c.uuid == uuid && c.title == title && !c.deleted
    ensures c.messages == [NewMessage(System, Some(instructions))]
  {
    Chat(uuid, title, "", "", [NewMessage(System, Some(instructions))], false)
  }

  /** A chat that has not been used yet: at most its system message. */
  predicate Unused(c: Chat) {
    |c.messages| <= 1
  }

  /**
    newChat: the store's last chat becomes the current one; it is kept when
    it is unused, otherwise a fresh chat is appended to the store and saved.
    With an empty store the current chat, if any, is the candidate.
   */
  function NewChat(current: Option<Chat>, chats: seq<Chat>, title: Option<string>, instructions: string, freshUuid: string): (r: Session)
    ensures |chats| > 0 && Unused(chats[|chats| - 1]) ==> r == Session(chats[|chats| - 1], chats, false)
    ensures |chats| == 0 && current.Some? && Unused(current.value) ==> r == Session(current.value, chats, false)
    ensures r.saved <==> !(if |chats| > 0 then Unused(chats[|chats| - 1]) else current.Some? && Unused(current.value))
    ensures r.saved ==> r.chat == FreshChat(freshUuid, title, instructions) && r.chats == chats + [r.chat]
    ensures Unused(r.chat)
  {
    var candidate := if |chats| > 0 then Some(chats[|chats| - 1]) else current;
    if candidate.Some? && Unused(candidate.value) then Session(candidate.value, chats, false)
    else
      var c := FreshChat(freshUuid, title, instructions);
      Session(c, chats + [c], true)
  }

  /** Asking for a new chat right after getting one changes nothing. */
  lemma NewChatTwice(current: Option<Chat>, chats: seq<Chat>, title: Option<string>, instructions: string, u1: string, u2: string)
    ensures var r := NewChat(current, chats, title, instructions, u1);
      |r.chats| > 0 ==> NewChat(Some(r.chat), r.chats, title, instructions, u2) == Session(r.chat, r.chats, false)
  {
  }

  /** How many messages of the list have the role. */
  function CountRole(messages: seq<Message>, role: Role): (n: nat)
    ensures n <= |messages|
  {
    if |messages| == 0 then 0
    else (if messages[|messages| - 1].role == role then 1 else 0) + CountRole(messages[..|messages| - 1], role)
  }

  lemma {:induction false} CountRoleAppend(a: seq<Message>, b: seq<Message>, role: Role)
    ensures CountRole(a + b, role) == CountRole(a, role) + CountRole(b, role)
    decreases |b|
  {
    if |b| > 0 {
      assert (a + b)[..|a + b| - 1] == a + b[..|b| - 1];
      CountRoleAppend(a, b[..|b| - 1], role);
    } else {
      assert a + b == a;
    }
  }

  /** `messages[i]`, `undefined` past the end. */
  function At(messages: seq<Message>, i: nat): (r: Option<Message>)
    ensures r.Some? <==> i < |messages|
    ensures r.Some? ==> r.value == messages[i]
  {
    if i < |messages| then Some(messages[i]) else None
  }

  /** The title the store keeps: the "Title:" label, one pair of surrounding quotes and whitespace removed. */
  function StripQuotes(s: string): (r: string)
    ensures |s| > 0 && s[0] == '"' && (|s| == 1 || s[|s| - 1] != '"') ==> r == s[1..]
    ensures |s| >= 2 && s[0] == '"' && s[|s| - 1] == '"' ==> r == s[1..|s| - 1]
    ensures (|s| == 0 || s[0] != '"') && (|s| == 0 || s[|s| - 1] != '"') ==> r == s
    ensures |s| > 0 && s[0] != '"' && s[|s| - 1] == '"' ==> r == s[..|s| - 1]
  {
    var a := if |s| > 0 && s[0] == '"' then 1 else 0;
    var b := if |s| > a && s[|s| - 1] == '"' then |s| - 1 else |s|;
    s[a..b]
  }

  const TITLE_LABEL: string := "Title:"

  /** getTitle's clean-up of the model's reply. */
  function CleanTitle(reply: string): (r: string)
    ensures Trimmed(r)
    ensures |r| <= |reply|
  {
    var t := if StartsWith(reply, TITLE_LABEL) then reply[|TITLE_LABEL|..] else reply;
    Trim(StripQuotes(Trim(t)))
  }

  /** A reply of the form `Title: "t"` gives back `t`. */
  lemma LabelledQuotedTitle(t: string)
    requires Trimmed(t)
    ensures CleanTitle(TITLE_LABEL + " \"" + t + "\"") == t
  {
    var reply := TITLE_LABEL + " \"" + t + "\"";
    assert reply[..|TITLE_LABEL|] == TITLE_LABEL;
    var rest := reply[|TITLE_LABEL|..];
    var q := "\"" + t + "\"";
    assert rest == " " + q + "";
    assert AllSpace(" ") && AllSpace("");
    TrimPadded(" ", q, "");
    assert StripQuotes(q) == t;
    TrimOfTrimmed(t);
  }

  /** A reply that is already a clean title is kept as it is. */
  lemma CleanTitleKept(t: string)
    requires Trimmed(t) && !StartsWith(t, TITLE_LABEL)
    requires |t| == 0 || (t[0] != '"' && t[|t| - 1] != '"')
    ensures CleanTitle(t) == t
  {
    TrimOfTrimmed(t);
  }

  /** What a prompt leaves behind: the chat, the messages sent to get a title if one was asked for, whether the store was saved. */
  datatype Exchange = Exchange(chat: Chat, titleRequest: Option<seq<Option<Message>>>, saved: bool)

  /**
    prompt: a blank prompt is ignored; otherwise the trimmed prompt and an
    empty assistant message are appended, and on the chat's first answer
    the title is asked for with the titling instructions and the messages
    at positions 1 and 2, and set from the cleaned reply.
   */
  function Prompt(chat: Chat, prompt: string, titling: string, titleReply: string): (r: Exchange)
    ensures r.saved <==> !AllSpace(prompt)
    ensures !r.saved ==> r == Exchange(chat, None, false)
    ensures r.saved ==> |r.chat.messages| == |chat.messages| + 2 && r.chat.messages[..|chat.messages|] == chat.messages
    ensures r.saved ==> r.chat.messages[|chat.messages|] == NewMessage(User, Some(Trim(prompt)))
    ensures r.saved ==> r.chat.messages[|chat.messages| + 1] == NewMessage(Assistant, None)
    ensures r.titleRequest.Some? <==> r.saved && CountRole(chat.messages, Assistant) == 0
    ensures r.saved ==> CountRole(r.chat.messages, Assistant) == CountRole(chat.messages, Assistant) + 1
    ensures r.titleRequest.Some? ==> r.chat.title == Some(CleanTitle(titleReply))
    ensures r.titleRequest.Some? ==> r.titleRequest.value == [Some(NewMessage(System, Some(titling))), At(r.chat.messages, 1), At(r.chat.messages, 2)]
    ensures r.titleRequest.None? ==> r.chat.title == chat.title
  {
    TrimEmptyIffAllSpace(prompt);
    var p := Trim(prompt);
    if p == "" then Exchange(chat, None, false)
    else
      var added := [NewMessage(User, Some(p)), NewMessage(Assistant, None)];
      var messages := chat.messages + added;
      CountRoleAppend(chat.messages, added, Assistant);
      assert CountRole(added, Assistant) == 1 by {
        assert added[..1] == [NewMessage(User, Some(p))];
        assert added[..1][..0] == [];
      }
      var c := chat.(messages := messages);
      if CountRole(messages, Assistant) == 1 then
        var request := [Some(NewMessage(System, Some(titling))), At(messages, 1), At(messages, 2)];
        Exchange(c.(title := Some(CleanTitle(titleReply))), Some(request), true)
      else Exchange(c, None, true)
  }

  /**
    The first prompt of a fresh chat: three messages, and the title is asked
    for from the user's prompt and the answer being generated.
   */
  lemma FirstPromptOfFreshChat(uuid: string, title: Option<string>, instructions: string, prompt: string, titling: string, reply: string)
    requires !AllSpace(prompt)
    ensures var r := Prompt(FreshChat(uuid, title, instructions), prompt, titling, reply);
      && |r.chat.messages| == 3
      && r.titleRequest == Some([Some(NewMessage(System, Some(titling))),
                                 Some(NewMessage(User, Some(Trim(prompt)))),
                                 Some(NewMessage(Assistant, None))])
  {
    var c := FreshChat(uuid, title, instructions);
    assert CountRole(c.messages, Assistant) == 0 by {
      assert c.messages[..0] == [];
    }
  }

  /** A second prompt adds two more messages and asks for no title. */
  lemma SecondPromptKeepsTitle(uuid: string, title: Option<string>, instructions: string, p1: string, p2: string, titling: string, reply: string)
    requires !AllSpace(p1) && !AllSpace(p2)
    ensures var r1 := Prompt(FreshChat(uuid, title, instructions), p1, titling, reply);
      var r2 := Prompt(r1.chat, p2, titling, reply);
      |r2.chat.messages| == 5 && r2.titleRequest.None? && r2.chat.title == r1.chat.title
  {
    var c := FreshChat(uuid, title, instructions);
    assert CountRole(c.messages, Assistant) == 0 by {
      assert c.messages[..0] == [];
    }
    var r1 := Prompt(c, p1, titling, reply);
    assert CountRole(r1.chat.messages, Assistant) == 1;
  }
}
