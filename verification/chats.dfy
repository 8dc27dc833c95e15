/**
  The conversation records shared by the history store and the assistant:
  chats, their messages, and the file a message may carry.
 */
module Chats {
  import opened Wrappers

  datatype Role = System | User | Assistant

  /** An attached file; `contents` is the loaded data, which the saved history leaves out. */
  datatype Attachment = Attachment(url: string, mimeType: string, contents: Option<string>, extracted: bool, saved: bool)

  /** A message; an assistant message being generated has no text yet. */
  datatype Message = Message(role: Role, content: Option<string>, attachment: Option<Attachment>)

  datatype Chat = Chat(uuid: string, title: Option<string>, engine: string, model: string, messages: seq<Message>, deleted: bool)

  /** `new Message(role, text)`: no attachment. */
  function NewMessage(role: Role, content: Option<string>): (m: Message)
    ensures m.role == role && m.content == content && m.attachment.None?
  {
    Message(role, content, None)
  }

  /** The uuids of the chats, in order. */
  function Uuids(chats: seq<Chat>): (r: seq<string>)
    ensures |r| == |chats| && forall i :: 0 <= i < |chats| ==> r[i] == chats[i].uuid
  {
    seq(|chats|, i requires 0 <= i < |chats| => chats[i].uuid)
  }

  /** `chats.find(c => c.uuid === uuid)`, as the index of the first match. */
  function FindChat(chats: seq<Chat>, uuid: string): (r: Option<nat>)
    ensures r.None? <==> uuid !in Uuids(chats)
    ensures r.Some? ==> r.value < |chats| && chats[r.value].uuid == uuid
    ensures r.Some? ==> forall j :: 0 <= j < r.value ==> chats[j].uuid != uuid
  {
    if |chats| == 0 then None
    else if chats[0].uuid == uuid then Some(0)
    else match FindChat(chats[1..], uuid)
      case None => None
      case Some(i) => Some(i + 1)
  }

  /** `chats.filter(c => c.uuid !== uuid)`. */
  function DropChat(chats: seq<Chat>, uuid: string): (r: seq<Chat>)
    ensures forall c :: c in r <==> c in chats && c.uuid != uuid
    ensures |r| <= |chats|
  {
    if |chats| == 0 then []
    else if chats[0].uuid == uuid then DropChat(chats[1..], uuid)
    else [chats[0]] + DropChat(chats[1..], uuid)
  }

  /** A uuid is in the list exactly when some chat carries it. */
  lemma UuidsMembership(chats: seq<Chat>, u: string)
    ensures u in Uuids(chats) <==> exists c :: c in chats && c.uuid == u
  {
    if u in Uuids(chats) {
      var i :| 0 <= i < |chats| && Uuids(chats)[i] == u;
      assert chats[i] in chats;
    }
  }

  /** After the filter the uuid is gone and every other uuid is still there. */
  lemma DropChatUuids(chats: seq<Chat>, uuid: string, u: string)
    ensures u in Uuids(DropChat(chats, uuid)) <==> u in Uuids(chats) && u != uuid
  {
    UuidsMembership(chats, u);
    UuidsMembership(DropChat(chats, uuid), u);
  }

  /** The filter keeps order: filtering a concatenation filters each part. */
  lemma {:induction false} DropChatAppend(a: seq<Chat>, b: seq<Chat>, uuid: string)
    ensures DropChat(a + b, uuid) == DropChat(a, uuid) + DropChat(b, uuid)
  {
    if |a| == 0 {
      assert a + b == b;
    } else {
      assert (a + b)[1..] == a[1..] + b;
      DropChatAppend(a[1..], b, uuid);
    }
  }

  /** A single chat is kept exactly when its uuid differs. */
  lemma DropChatSingle(c: Chat, uuid: string)
    ensures DropChat([c], uuid) == if c.uuid == uuid then [] else [c]
  {
    assert [c][1..] == [];
  }

  /** The chats whose uuid is not among `uuids`, in their order. */
  function Outside(chats: seq<Chat>, uuids: seq<string>): (r: seq<Chat>)
    ensures forall c :: c in r <==> c in chats && c.uuid !in uuids
  {
    if |chats| == 0 then []
    else (if chats[0].uuid in uuids then [] else [chats[0]]) + Outside(chats[1..], uuids)
  }

  lemma {:induction false} OutsideAppend(a: seq<Chat>, b: seq<Chat>, uuids: seq<string>)
    ensures Outside(a + b, uuids) == Outside(a, uuids) + Outside(b, uuids)
  {
    if |a| == 0 {
      assert a + b == b;
    } else {
      assert (a + b)[1..] == a[1..] + b;
      OutsideAppend(a[1..], b, uuids);
    }
  }

  /** Removing the chats of a listed uuid leaves the chats outside the list as they were. */
  lemma {:induction false} OutsideDrop(chats: seq<Chat>, uuid: string, uuids: seq<string>)
    requires uuid in uuids
    ensures Outside(DropChat(chats, uuid), uuids) == Outside(chats, uuids)
  {
    if |chats| > 0 {
      OutsideDrop(chats[1..], uuid, uuids);
      if chats[0].uuid != uuid {
        var rest := DropChat(chats[1..], uuid);
        assert ([chats[0]] + rest)[1..] == rest;
      }
    }
  }

  /** Replacing a listed chat by another listed one leaves the chats outside the list as they were. */
  lemma OutsideUpdate(chats: seq<Chat>, i: nat, c: Chat, uuids: seq<string>)
    requires i < |chats| && chats[i].uuid in uuids && c.uuid in uuids
    ensures Outside(chats[i := c], uuids) == Outside(chats, uuids)
  {
    var pre, post := chats[..i], chats[i + 1..];
    assert chats == pre + [chats[i]] + post;
    assert chats[i := c] == pre + [c] + post;
    OutsideAppend(pre + [chats[i]], post, uuids);
    OutsideAppend(pre, [chats[i]], uuids);
    OutsideAppend(pre + [c], post, uuids);
    OutsideAppend(pre, [c], uuids);
    assert [c][1..] == [] && [chats[i]][1..] == [];
  }
}
