/**
  The renderer's store (src/services/store.ts): merging the history file
  another window saved into the chats in memory, the stripping of
  attachment contents when the history is saved, and the choice of a ready
  engine at start-up. File access, the timer and the Chat class's own
  patching are outside the model; the patching is a parameter.
 */
module Store {
  import opened Wrappers
  import opened Chats

  /** `chat.patchFromJson(saved)`: the chat after taking the saved version's changes, and whether anything changed. */
  type Patcher = (Chat, Chat) -> (Chat, bool)

  /** Patching a chat from its own saved version keeps its uuid. */
  ghost predicate KeepsUuid(patch: Patcher) {
    forall c: Chat, j: Chat :: c.uuid == j.uuid ==> patch(c, j).0.uuid == c.uuid
  }

  /** The saved version wins: what a patch from a newer file amounts to when every field is taken over. */
  function Adopt(c: Chat, saved: Chat): (Chat, bool) {
    (saved, c != saved)
  }

  /**
    One saved chat merged into the chats in memory. An unknown chat is
    appended, a known deleted chat is filtered out, and a known chat is
    patched, unless `skip` says an earlier change already decided the outcome.
    The flag says whether the history changed.
   */
  function Apply(chats: seq<Chat>, saved: Chat, patch: Patcher, skip: bool): (r: (seq<Chat>, bool))
    ensures saved.uuid !in Uuids(chats) ==> r == (chats + [saved], true)
    ensures saved.uuid in Uuids(chats) && saved.deleted ==> r == (DropChat(chats, saved.uuid), true)
    ensures saved.uuid in Uuids(chats) && !saved.deleted && skip ==> r == (chats, true)
    ensures saved.uuid in Uuids(chats) && !saved.deleted && !skip ==>
      var i := FindChat(chats, saved.uuid).value;
      r == (chats[i := patch(chats[i], saved).0], patch(chats[i], saved).1)
    ensures forall c :: c in chats && c.uuid != saved.uuid ==> c in r.0
  {
    match FindChat(chats, saved.uuid)
    case None => (chats + [saved], true)
    case Some(i) =>
      if saved.deleted then (DropChat(chats, saved.uuid), true)
      else if skip then (chats, true)
      else
        var (c, changed) := patch(chats[i], saved);
        UpdateKeepsOthers(chats, i, c);
        (chats[i := c], changed)
  }

  /** Replacing the chat at `i` keeps every chat with another uuid. */
  lemma UpdateKeepsOthers(chats: seq<Chat>, i: nat, c: Chat)
    requires i < |chats|
    ensures forall d :: d in chats && d.uuid != chats[i].uuid ==> d in chats[i := c]
  {
    forall d | d in chats && d.uuid != chats[i].uuid
      ensures d in chats[i := c]
    {
      var k :| 0 <= k < |chats| && chats[k] == d;
      assert chats[i := c][k] == d;
    }
  }

  /** Replacing a chat by one with the same uuid keeps the uuids. */
  lemma UpdateKeepsUuids(chats: seq<Chat>, i: nat, c: Chat)
    requires i < |chats| && c.uuid == chats[i].uuid
    ensures Uuids(chats[i := c]) == Uuids(chats)
  {
  }

  lemma UuidsTail(chats: seq<Chat>)
    requires |chats| > 0
    ensures Uuids(chats) == [chats[0].uuid] + Uuids(chats[1..])
  {
  }

  /**
    The loop of patchHistory over the saved chats. As written (`fixed` false)
    the accumulated flag short-circuits `patched || chat.patchFromJson(...)`,
    so once anything changed the remaining known chats are not patched.
   */
  function PatchLoop(chats: seq<Chat>, saved: seq<Chat>, patch: Patcher, patched: bool, fixed: bool): (r: (seq<Chat>, bool))
    ensures patched ==> r.1
    ensures forall c :: c in chats && c.uuid !in Uuids(saved) ==> c in r.0
    decreases |saved|
  {
    if |saved| == 0 then (chats, patched)
    else
      UuidsTail(saved);
      var (c1, p1) := Apply(chats, saved[0], patch, patched && !fixed);
      PatchLoop(c1, saved[1..], patch, patched || p1, fixed)
  }

  /** The history to write: attachment contents are not saved. */
  function StripMessage(m: Message): (r: Message)
    ensures r.role == m.role && r.content == m.content && r.attachment.Some? == m.attachment.Some?
    ensures r.attachment.Some? ==> r.attachment.value == m.attachment.value.(contents := None)
  {
    if m.attachment.Some? then m.(attachment := Some(m.attachment.value.(contents := None))) else m
  }

  function StripChat(c: Chat): Chat {
    c.(messages := seq(|c.messages|, i requires 0 <= i < |c.messages| => StripMessage(c.messages[i])))
  }

  /** No attachment of any message carries its contents. */
  predicate Stripped(chats: seq<Chat>) {
    forall i, k :: 0 <= i < |chats| && 0 <= k < |chats[i].messages| && chats[i].messages[k].attachment.Some? ==>
      chats[i].messages[k].attachment.value.contents.None?
  }

  /** The two histories differ in attachment contents at most. */
  predicate SameButContents(a: seq<Chat>, b: seq<Chat>) {
    && |a| == |b|
    && forall i :: 0 <= i < |a| ==>
      && a[i].(messages := []) == b[i].(messages := [])
      && |a[i].messages| == |b[i].messages|
      && forall k :: 0 <= k < |a[i].messages| ==>
        var m, n := a[i].messages[k], b[i].messages[k];
        && m.role == n.role && m.content == n.content && m.attachment.Some? == n.attachment.Some?
        && (m.attachment.Some? ==> m.attachment.value.(contents := None) == n.attachment.value.(contents := None))
  }

  /** saveHistory's copy: every chat and message kept, only attachment contents nulled. */
  function StripAttachments(chats: seq<Chat>): (r: seq<Chat>)
    ensures Stripped(r)
    ensures SameButContents(chats, r)
  {
    seq(|chats|, i requires 0 <= i < |chats| => StripChat(chats[i]))
  }

  /** Stripping a stripped history changes nothing, so saving twice writes the same file. */
  lemma StripIdempotent(chats: seq<Chat>)
    ensures StripAttachments(StripAttachments(chats)) == StripAttachments(chats)
  {
    var once := StripAttachments(chats);
    StripStripped(once);
  }

  /** A history without attachment contents is saved as it is. */
  lemma StripStripped(chats: seq<Chat>)
    requires Stripped(chats)
    ensures StripAttachments(chats) == chats
  {
    var r := StripAttachments(chats);
    forall i | 0 <= i < |chats|
      ensures r[i] == chats[i]
    {
      assert r[i].messages == chats[i].messages;
    }
  }

  /**
    patchHistory as written: the merged chats, and the history saved
    (stripped) exactly when something changed. When patching keeps uuids,
    the chats the file does not mention keep their order, and a chat the
    file adds or deletes always makes it save; when patching reports every
    change it makes, nothing is saved exactly when nothing changed.
   */
  function PatchHistory(chats: seq<Chat>, saved: seq<Chat>, patch: Patcher): (r: (seq<Chat>, Option<seq<Chat>>))
    ensures r.1.Some? ==> r.1.value == StripAttachments(r.0) && Stripped(r.1.value)
    ensures forall c :: c in chats && c.uuid !in Uuids(saved) ==> c in r.0
    ensures KeepsUuid(patch) ==> Outside(r.0, Uuids(saved)) == Outside(chats, Uuids(saved))
    ensures KeepsUuid(patch) && (exists j :: 0 <= j < |saved| && Reshapes(chats, saved[j])) ==> r.1.Some?
    ensures Honest(patch) ==> (r.1.None? <==> Unchanged(chats, saved, patch))
    ensures Honest(patch) && r.1.None? ==> r.0 == chats
  {
    LoopFacts(chats, saved, patch, false);
    var (merged, patched) := PatchLoop(chats, saved, patch, false, false);
    (merged, if patched then Some(StripAttachments(merged)) else None)
  }

  /** patchHistory as evidently intended: every known chat is patched, whatever came before it. */
  function PatchHistoryFixed(chats: seq<Chat>, saved: seq<Chat>, patch: Patcher): (r: (seq<Chat>, Option<seq<Chat>>))
    ensures r.1.Some? ==> r.1.value == StripAttachments(r.0) && Stripped(r.1.value)
    ensures forall c :: c in chats && c.uuid !in Uuids(saved) ==> c in r.0
    ensures KeepsUuid(patch) ==> Outside(r.0, Uuids(saved)) == Outside(chats, Uuids(saved))
    ensures KeepsUuid(patch) && (exists j :: 0 <= j < |saved| && Reshapes(chats, saved[j])) ==> r.1.Some?
    ensures Honest(patch) ==> (r.1.None? <==> Unchanged(chats, saved, patch))
    ensures Honest(patch) && r.1.None? ==> r.0 == chats
  {
    LoopFacts(chats, saved, patch, true);
    var (merged, patched) := PatchLoop(chats, saved, patch, false, true);
    (merged, if patched then Some(StripAttachments(merged)) else None)
  }

  /** `patchFromJson` reports every change it makes: when it says nothing changed, the chat is as it was. */
  ghost predicate Honest(patch: Patcher) {
    forall c: Chat, j: Chat :: !patch(c, j).1 ==> patch(c, j).0 == c
  }

  /** The saved chat changes the list itself: it is new, or it is known and deleted. */
  predicate Reshapes(chats: seq<Chat>, saved: Chat) {
    saved.uuid !in Uuids(chats) || (saved.deleted && saved.uuid in Uuids(chats))
  }

  /** Every saved chat is known and not deleted, and patching the chat in memory from it reports no change. */
  predicate Unchanged(chats: seq<Chat>, saved: seq<Chat>, patch: Patcher) {
    forall j :: 0 <= j < |saved| ==>
      && !Reshapes(chats, saved[j])
      && !patch(chats[FindChat(chats, saved[j].uuid).value], saved[j]).1
  }

  /** What the loop promises, from a start where nothing has changed yet. */
  lemma LoopFacts(chats: seq<Chat>, saved: seq<Chat>, patch: Patcher, fixed: bool)
    ensures var r := PatchLoop(chats, saved, patch, false, fixed);
      && (KeepsUuid(patch) ==> Outside(r.0, Uuids(saved)) == Outside(chats, Uuids(saved)))
      && (KeepsUuid(patch) && (exists j :: 0 <= j < |saved| && Reshapes(chats, saved[j])) ==> r.1)
      && (Honest(patch) ==> (!r.1 <==> Unchanged(chats, saved, patch)))
      && (Honest(patch) && !r.1 ==> r.0 == chats)
  {
    if KeepsUuid(patch) {
      forall j | 0 <= j < |saved| ensures saved[j].uuid in Uuids(saved) {
        assert Uuids(saved)[j] == saved[j].uuid;
      }
      LoopOutside(chats, saved, patch, false, fixed, Uuids(saved));
      if exists j :: 0 <= j < |saved| && Reshapes(chats, saved[j]) {
        var j :| 0 <= j < |saved| && Reshapes(chats, saved[j]);
        ReshapeSaves(chats, saved, patch, false, fixed, j);
      }
    }
    if Honest(patch) {
      UnchangedLoop(chats, saved, patch, fixed);
    }
  }

  /** One step leaves the chats outside a list holding the step's uuid as they were. */
  lemma ApplyOutside(chats: seq<Chat>, saved: Chat, patch: Patcher, skip: bool, uuids: seq<string>)
    requires KeepsUuid(patch) && saved.uuid in uuids
    ensures Outside(Apply(chats, saved, patch, skip).0, uuids) == Outside(chats, uuids)
  {
    match FindChat(chats, saved.uuid)
    case None =>
      OutsideAppend(chats, [saved], uuids);
      assert [saved][1..] == [];
    case Some(i) =>
      if saved.deleted {
        OutsideDrop(chats, saved.uuid, uuids);
      } else if !skip {
        OutsideUpdate(chats, i, patch(chats[i], saved).0, uuids);
      }
  }

  /** The loop leaves the chats outside a list holding every saved uuid in their order. */
  lemma {:induction false} LoopOutside(chats: seq<Chat>, saved: seq<Chat>, patch: Patcher, patched: bool, fixed: bool, uuids: seq<string>)
    requires KeepsUuid(patch)
    requires forall j :: 0 <= j < |saved| ==> saved[j].uuid in uuids
    ensures Outside(PatchLoop(chats, saved, patch, patched, fixed).0, uuids) == Outside(chats, uuids)
    decreases |saved|
  {
    if |saved| > 0 {
      var r1 := Apply(chats, saved[0], patch, patched && !fixed);
      LoopStep(chats, saved, patch, patched, fixed);
      ApplyOutside(chats, saved[0], patch, patched && !fixed, uuids);
      forall j | 0 <= j < |saved| - 1 ensures saved[1..][j].uuid in uuids {
        assert saved[1..][j] == saved[j + 1];
      }
      LoopOutside(r1.0, saved[1..], patch, patched || r1.1, fixed, uuids);
    }
  }

  /** A saved chat that is new or deleted makes the loop report a change, wherever it sits in the file. */
  lemma {:induction false} ReshapeSaves(chats: seq<Chat>, saved: seq<Chat>, patch: Patcher, patched: bool, fixed: bool, k: nat)
    requires KeepsUuid(patch) && k < |saved| && Reshapes(chats, saved[k])
    ensures PatchLoop(chats, saved, patch, patched, fixed).1
    decreases |saved|
  {
    var quiet, next, rest, j := QuietStep(chats, saved, patch, patched, fixed, k);
    if quiet {
      ReshapeSaves(next, rest, patch, patched, fixed, j);
    }
  }

  /**
   * One step of the loop: either it reports a change, or it is quiet, the reshaping saved chat is
   * further on in the file, and the list it meets there has the same uuids.
   */
  lemma QuietStep(chats: seq<Chat>, saved: seq<Chat>, patch: Patcher, patched: bool, fixed: bool, k: nat)
    returns (quiet: bool, next: seq<Chat>, rest: seq<Chat>, j: nat)
    requires KeepsUuid(patch) && k < |saved| && Reshapes(chats, saved[k])
    ensures !quiet ==> PatchLoop(chats, saved, patch, patched, fixed).1
    ensures quiet ==>
      && |rest| < |saved| && j < |rest| && Reshapes(next, rest[j])
      && PatchLoop(chats, saved, patch, patched, fixed).1 == PatchLoop(next, rest, patch, patched, fixed).1
  {
    var r1 := Apply(chats, saved[0], patch, patched && !fixed);
    LoopStep(chats, saved, patch, patched, fixed);
    QuietApply(chats, saved[0], patch, patched && !fixed);
    quiet, next, rest, j := !r1.1, r1.0, saved[1..], 0;
    if quiet {
      j := k - 1;
      assert rest[j] == saved[k];
      assert Reshapes(next, rest[j]) by { assert Uuids(next) == Uuids(chats); }
    }
  }

  /** A step that reshapes the list reports a change; a step that reports none keeps the uuids. */
  lemma QuietApply(chats: seq<Chat>, saved: Chat, patch: Patcher, skip: bool)
    requires KeepsUuid(patch)
    ensures Reshapes(chats, saved) ==> Apply(chats, saved, patch, skip).1
    ensures !Apply(chats, saved, patch, skip).1 ==> Uuids(Apply(chats, saved, patch, skip).0) == Uuids(chats)
  {
    if !Reshapes(chats, saved) && !skip {
      var i := FindChat(chats, saved.uuid).value;
      UpdateKeepsUuids(chats, i, patch(chats[i], saved).0);
    }
  }

  /** With honest patching, the loop reports no change exactly when every saved chat leaves its chat as it is. */
  lemma {:induction false} UnchangedLoop(chats: seq<Chat>, saved: seq<Chat>, patch: Patcher, fixed: bool)
    requires Honest(patch)
    ensures !PatchLoop(chats, saved, patch, false, fixed).1 <==> Unchanged(chats, saved, patch)
    ensures Unchanged(chats, saved, patch) ==> PatchLoop(chats, saved, patch, false, fixed) == (chats, false)
    decreases |saved|
  {
    if |saved| > 0 {
      var r1 := Apply(chats, saved[0], patch, false);
      LoopStep(chats, saved, patch, false, fixed);
      UnchangedTail(chats, saved, patch);
      if !r1.1 {
        var i := FindChat(chats, saved[0].uuid).value;
        assert r1.0 == chats[i := chats[i]] == chats;
        UnchangedLoop(chats, saved[1..], patch, fixed);
      }
    }
  }

  /** `Unchanged` splits into the first saved chat and the rest. */
  lemma UnchangedTail(chats: seq<Chat>, saved: seq<Chat>, patch: Patcher)
    requires |saved| > 0
    ensures Unchanged(chats, saved, patch) <==>
      && !Reshapes(chats, saved[0])
      && !patch(chats[FindChat(chats, saved[0].uuid).value], saved[0]).1
      && Unchanged(chats, saved[1..], patch)
  {
    if !Reshapes(chats, saved[0]) && Unchanged(chats, saved[1..], patch) {
      forall j | 1 <= j < |saved| ensures !Reshapes(chats, saved[j]) {
        assert saved[1..][j - 1] == saved[j];
      }
    }
    if Unchanged(chats, saved, patch) {
      forall j | 0 <= j < |saved| - 1 ensures !Reshapes(chats, saved[1..][j]) {
        assert saved[1..][j] == saved[j + 1];
      }
    }
  }

  /** An empty history file changes nothing and saves nothing. */
  lemma PatchNothing(chats: seq<Chat>, patch: Patcher)
    ensures PatchHistory(chats, [], patch) == (chats, None)
  {
  }

  predicate DistinctUuids(chats: seq<Chat>) {
    forall i, j :: 0 <= i < j < |chats| ==> chats[i].uuid != chats[j].uuid
  }

  /** The first chat of the file is unknown: it is appended and the history will be saved. */
  lemma AppendStep(chats: seq<Chat>, saved: seq<Chat>, patch: Patcher, patched: bool, fixed: bool)
    requires |saved| > 0 && saved[0].uuid !in Uuids(chats)
    ensures PatchLoop(chats, saved, patch, patched, fixed) == PatchLoop(chats + [saved[0]], saved[1..], patch, true, fixed)
  {
    assert Apply(chats, saved[0], patch, patched && !fixed) == (chats + [saved[0]], true);
  }

  /** No chat of the file is known to the memory. */
  predicate AllUnknown(chats: seq<Chat>, saved: seq<Chat>) {
    forall j :: 0 <= j < |saved| ==> saved[j].uuid !in Uuids(chats)
  }

  /** Distinct uuids, none known: after appending the first, the rest are still unknown. */
  lemma StillUnknown(chats: seq<Chat>, saved: seq<Chat>)
    requires |saved| > 0 && DistinctUuids(saved)
    requires AllUnknown(chats, saved)
    ensures DistinctUuids(saved[1..])
    ensures AllUnknown(chats + [saved[0]], saved[1..])
  {
    assert Uuids(chats + [saved[0]]) == Uuids(chats) + [saved[0].uuid];
    forall j | 0 <= j < |saved| - 1
      ensures saved[1..][j].uuid !in Uuids(chats + [saved[0]])
    {
      assert saved[1..][j] == saved[j + 1];
    }
  }

  /** Chats the memory does not know yet are appended in file order, and the history is saved. */
  lemma {:induction false} NewChatsAppended(chats: seq<Chat>, saved: seq<Chat>, patch: Patcher, patched: bool, fixed: bool)
    requires DistinctUuids(saved)
    requires AllUnknown(chats, saved)
    ensures PatchLoop(chats, saved, patch, patched, fixed) == (chats + saved, patched || |saved| > 0)
    decreases |saved|, 1
  {
    if |saved| > 0 {
      NewChatsRest(chats, saved, patch, fixed);
      AppendStep(chats, saved, patch, patched, fixed);
    } else {
      assert chats + saved == chats;
    }
  }

  /** The inductive step of `NewChatsAppended`: once the first chat is appended, the rest follow it. */
  lemma {:induction false} NewChatsRest(chats: seq<Chat>, saved: seq<Chat>, patch: Patcher, fixed: bool)
    requires |saved| > 0 && DistinctUuids(saved)
    requires AllUnknown(chats, saved)
    ensures PatchLoop(chats + [saved[0]], saved[1..], patch, true, fixed) == (chats + saved, true)
    decreases |saved|, 0
  {
    var grown, rest := chats + [saved[0]], saved[1..];
    StillUnknown(chats, saved);
    NewChatsAppended(grown, rest, patch, true, fixed);
    assert saved == [saved[0]] + rest;
    assert grown + rest == chats + ([saved[0]] + rest);
  }

  /** When nothing is saved, the chats in memory are the same chats in the same order. */
  lemma {:induction false} UnsavedKeepsChats(chats: seq<Chat>, saved: seq<Chat>, patch: Patcher, fixed: bool)
    requires KeepsUuid(patch)
    requires !PatchLoop(chats, saved, patch, false, fixed).1
    ensures Uuids(PatchLoop(chats, saved, patch, false, fixed).0) == Uuids(chats)
    decreases |saved|
  {
    if |saved| > 0 {
      var r1 := Apply(chats, saved[0], patch, false);
      assert PatchLoop(chats, saved, patch, false, fixed) == PatchLoop(r1.0, saved[1..], patch, r1.1, fixed);
      assert !r1.1;
      var i := FindChat(chats, saved[0].uuid).value;
      UpdateKeepsUuids(chats, i, patch(chats[i], saved[0]).0);
      UnsavedKeepsChats(r1.0, saved[1..], patch, fixed);
    }
  }

  /** Once something changed, the rest of the loop as written no longer consults the patching at all. */
  lemma {:induction false} PatchedIgnoresPatch(chats: seq<Chat>, saved: seq<Chat>, p: Patcher, q: Patcher)
    ensures PatchLoop(chats, saved, p, true, false) == PatchLoop(chats, saved, q, true, false)
    decreases |saved|
  {
    if |saved| > 0 {
      assert Apply(chats, saved[0], p, true) == Apply(chats, saved[0], q, true);
      PatchedIgnoresPatch(Apply(chats, saved[0], p, true).0, saved[1..], p, q);
    }
  }

  /** One step never brings in a uuid that is neither in memory nor the step's own. */
  lemma ApplyAbsent(chats: seq<Chat>, saved: Chat, patch: Patcher, skip: bool, u: string)
    requires KeepsUuid(patch)
    requires u !in Uuids(chats) && u != saved.uuid
    ensures u !in Uuids(Apply(chats, saved, patch, skip).0)
  {
    if saved.uuid in Uuids(chats) && saved.deleted {
      DropChatUuids(chats, saved.uuid, u);
    } else if saved.uuid in Uuids(chats) && !skip {
      var i := FindChat(chats, saved.uuid).value;
      UpdateKeepsUuids(chats, i, patch(chats[i], saved).0);
    } else if saved.uuid !in Uuids(chats) {
      assert Uuids(chats + [saved]) == Uuids(chats) + [saved.uuid];
    }
  }

  /** A uuid that is neither in memory nor in the file never shows up. */
  lemma {:induction false} AbsentStaysAbsent(chats: seq<Chat>, saved: seq<Chat>, patch: Patcher, patched: bool, fixed: bool, u: string)
    requires KeepsUuid(patch)
    requires u !in Uuids(chats) && u !in Uuids(saved)
    ensures u !in Uuids(PatchLoop(chats, saved, patch, patched, fixed).0)
    decreases |saved|
  {
    if |saved| > 0 {
      UuidsTail(saved);
      var r1 := Apply(chats, saved[0], patch, patched && !fixed);
      assert PatchLoop(chats, saved, patch, patched, fixed) == PatchLoop(r1.0, saved[1..], patch, patched || r1.1, fixed);
      ApplyAbsent(chats, saved[0], patch, patched && !fixed, u);
      AbsentStaysAbsent(r1.0, saved[1..], patch, patched || r1.1, fixed, u);
    }
  }

  /** A chat deleted in the file and known in memory is gone after the merge, both as written and as intended. */
  lemma {:induction false} DeletedChatRemoved(chats: seq<Chat>, saved: seq<Chat>, patch: Patcher, patched: bool, fixed: bool, k: nat)
    requires KeepsUuid(patch) && DistinctUuids(saved)
    requires k < |saved| && saved[k].deleted && saved[k].uuid in Uuids(chats)
    ensures saved[k].uuid !in Uuids(PatchLoop(chats, saved, patch, patched, fixed).0)
    decreases |saved|
  {
    var r1 := Apply(chats, saved[0], patch, patched && !fixed);
    LoopStep(chats, saved, patch, patched, fixed);
    DistinctTail(saved);
    var u := saved[k].uuid;
    if k == 0 {
      DropChatUuids(chats, u, u);
      AbsentStaysAbsent(r1.0, saved[1..], patch, patched || r1.1, fixed, u);
    } else {
      ApplyKeepsKnown(chats, saved[0], patch, patched && !fixed, u);
      DeletedChatRemoved(r1.0, saved[1..], patch, patched || r1.1, fixed, k - 1);
    }
  }

  /** One step of the loop: the first saved chat is applied, then the rest. */
  lemma LoopStep(chats: seq<Chat>, saved: seq<Chat>, patch: Patcher, patched: bool, fixed: bool)
    requires |saved| > 0
    ensures var r1 := Apply(chats, saved[0], patch, patched && !fixed);
      PatchLoop(chats, saved, patch, patched, fixed) == PatchLoop(r1.0, saved[1..], patch, patched || r1.1, fixed)
  {
  }

  /** The tail of a file with distinct uuids has distinct uuids, none of them the head's. */
  lemma DistinctTail(saved: seq<Chat>)
    requires |saved| > 0 && DistinctUuids(saved)
    ensures DistinctUuids(saved[1..])
    ensures saved[0].uuid !in Uuids(saved[1..])
    ensures forall j :: 0 <= j < |saved| - 1 ==> saved[1..][j] == saved[j + 1]
  {
    UuidsTail(saved);
  }

  /** A known uuid other than the step's own stays known. */
  lemma ApplyKeepsKnown(chats: seq<Chat>, saved: Chat, patch: Patcher, skip: bool, u: string)
    requires u in Uuids(chats) && u != saved.uuid
    ensures u in Uuids(Apply(chats, saved, patch, skip).0)
  {
    UuidsMembership(chats, u);
    var c :| c in chats && c.uuid == u;
    assert c in Apply(chats, saved, patch, skip).0;
    UuidsMembership(Apply(chats, saved, patch, skip).0, u);
  }

  /** As intended, with the saved version winning, every chat of the file that is not deleted ends up in memory. */
  lemma {:induction false} FixedAdoptsEverySavedChat(chats: seq<Chat>, saved: seq<Chat>, patched: bool, k: nat)
    requires DistinctUuids(saved) && k < |saved| && !saved[k].deleted
    ensures saved[k] in PatchLoop(chats, saved, Adopt, patched, true).0
    decreases |saved|
  {
    var r1 := Apply(chats, saved[0], Adopt, false);
    LoopStep(chats, saved, Adopt, patched, true);
    DistinctTail(saved);
    if k == 0 {
      assert saved[0] in r1.0 by {
        if saved[0].uuid in Uuids(chats) {
          var i := FindChat(chats, saved[0].uuid).value;
          assert r1.0 == chats[i := saved[0]];
          assert r1.0[i] == saved[0];
        } else {
          assert r1.0 == chats + [saved[0]];
          assert r1.0[|chats|] == saved[0];
        }
      }
    } else {
      FixedAdoptsEverySavedChat(r1.0, saved[1..], patched || r1.1, k - 1);
    }
  }

  /** The chats of the counterexample: two known chats, both retitled in the file. */
  function Untitled(uuid: string): Chat {
    Chat(uuid, None, "", "", [], false)
  }

  /**
    As written, a change to the first chat makes the loop skip the second:
    its newer title is not taken over, and the file is then overwritten
    with the older one.
   */
  lemma SecondChangeLost()
    ensures var a, b := Untitled("a"), Untitled("b");
      var a2, b2 := a.(title := Some("x")), b.(title := Some("y"));
      var r := PatchHistory([a, b], [a2, b2], Adopt);
      && r.0 == [a2, b] && r.1 == Some(StripAttachments([a2, b]))
      && b2 in PatchHistoryFixed([a, b], [a2, b2], Adopt).0
  {
    var a, b := Untitled("a"), Untitled("b");
    var a2, b2 := a.(title := Some("x")), b.(title := Some("y"));
    assert FindChat([a, b], "a") == Some(0);
    assert a != a2;
    var c1 := [a2, b];
    assert [a, b][0 := a2] == c1;
    assert Apply([a, b], a2, Adopt, false) == (c1, true);
    assert FindChat(c1, "b") == Some(1);
    assert Apply(c1, b2, Adopt, true) == (c1, true);
    assert PatchLoop(c1, [b2], Adopt, true, false) == PatchLoop(c1, [], Adopt, true, false);
    assert [a2, b2][1..] == [b2];
    assert DistinctUuids([a2, b2]);
    FixedAdoptsEverySavedChat([a, b], [a2, b2], false, 1);
  }

  /* -------------------------------------------------------------- engines */

  /** The first engine of the list that is ready. */
  function FirstReady(engines: seq<string>, ready: string -> bool): (r: Option<nat>)
    ensures r.None? <==> forall i :: 0 <= i < |engines| ==> !ready(engines[i])
    ensures r.Some? ==> r.value < |engines| && ready(engines[r.value])
    ensures r.Some? ==> forall j :: 0 <= j < r.value ==> !ready(engines[j])
  {
    if |engines| == 0 then None
    else if ready(engines[0]) then Some(0)
    else match FirstReady(engines[1..], ready)
      case None => None
      case Some(i) => Some(i + 1)
  }

  /**
    The engine store.load settles on: the configured one if it is ready,
    else the first ready engine of the list, else still the configured one.
   */
  function SelectEngine(current: string, available: seq<string>, ready: string -> bool): (r: string)
    ensures ready(current) ==> r == current
    ensures !ready(current) && FirstReady(available, ready).Some? ==> r == available[FirstReady(available, ready).value]
    ensures !ready(current) && FirstReady(available, ready).None? ==> r == current
    ensures r == current || r in available
  {
    if ready(current) then current
    else match FirstReady(available, ready)
      case Some(i) => available[i]
      case None => current
  }

  /** The chosen engine is ready exactly when the configured one or some listed one is. */
  lemma SelectedIsReady(current: string, available: seq<string>, ready: string -> bool)
    ensures ready(SelectEngine(current, available, ready)) <==>
      ready(current) || exists i :: 0 <= i < |available| && ready(available[i])
  {
  }
}
