/** The conversation transcript and the three transformations a message item
    applies to it: delete, regenerate (re-answer) and the lock toggle.
    A transcript is an ordered sequence of messages; a `user` message and the
    reply right after it form a pair, found by adjacency alone. */
module Transcript {
  import opened Wrappers

  datatype Role = User | Assistant | System | Error

  /** The optional `type` tag of a message; `Untagged` is the absent tag. */
  datatype Tag = Untagged | Temporary | Locked

  datatype Message = Message(role: Role, content: string, tag: Tag)

  // ---------------------------------------------------------------------------
  // Array.prototype.filter with an (element, index) callback
  // ---------------------------------------------------------------------------

  /** The elements of s[from..], in order, for which keep(element, index) holds;
      indices are positions in the whole of s. */
  function FilterFrom(s: seq<Message>, from: nat, keep: (Message, nat) -> bool): (r: seq<Message>)
    requires from <= |s|
    ensures |r| <= |s| - from
    ensures forall m :: m in r ==> m in s[from..]
    decreases |s| - from
  {
    if from == |s| then []
    else (if keep(s[from], from) then [s[from]] else []) + FilterFrom(s, from + 1, keep)
  }

  function Filter(s: seq<Message>, keep: (Message, nat) -> bool): (r: seq<Message>)
  {
    FilterFrom(s, 0, keep)
  }

  /** A filter that rejects exactly the positions lo..hi-1 cuts that block out
      and leaves everything else, in order and unchanged. */
  lemma {:induction false} FilterFromDropsBlock(s: seq<Message>, from: nat, keep: (Message, nat) -> bool, lo: nat, hi: nat)
    requires from <= lo <= hi <= |s|
    requires forall i :: from <= i < |s| ==> (keep(s[i], i) <==> !(lo <= i < hi))
    ensures FilterFrom(s, from, keep) == s[from..lo] + s[hi..]
    decreases |s| - from
  {
    if from < |s| {
      var head := if keep(s[from], from) then [s[from]] else [];
      assert FilterFrom(s, from, keep) == head + FilterFrom(s, from + 1, keep);
      if from < lo {
        FilterFromDropsBlock(s, from + 1, keep, lo, hi);
        assert head == [s[from]];
        assert s[from..lo] == [s[from]] + s[from + 1..lo];
      } else if from < hi {
        FilterFromDropsBlock(s, from + 1, keep, from + 1, hi);
        assert head == [];
      } else {
        FilterFromDropsBlock(s, from + 1, keep, from + 1, from + 1);
        assert head == [s[from]];
        assert s[from..] == [s[from]] + s[from + 1..];
      }
    }
  }

  // ---------------------------------------------------------------------------
  // del
  // ---------------------------------------------------------------------------

  /** The message at index is a user question whose next message is a reply
      (anything but another user message), so the two go together. */
  predicate TakesReply(msgs: seq<Message>, index: nat)
    requires index < |msgs|
  {
    msgs[index].role == User && index + 1 < |msgs| && msgs[index + 1].role != User
  }

  /** Deleting the message at index: a user message goes together with the
      reply that follows it; a following user message, and every other
      message, stays where it was relative to the rest. */
  function Del(msgs: seq<Message>, index: nat): (r: seq<Message>)
    requires index < |msgs|
    ensures TakesReply(msgs, index) ==> r == msgs[..index] + msgs[index + 2..]
    ensures !TakesReply(msgs, index) ==> r == msgs[..index] + msgs[index + 1..]
    ensures |r| == |msgs| - (if TakesReply(msgs, index) then 2 else 1)
  {
    if msgs[index].role == User then
      var keep := (m: Message, i: nat) => !(i == index || (i == index + 1 && m.role != User));
      FilterFromDropsBlock(msgs, 0, keep, index, if TakesReply(msgs, index) then index + 2 else index + 1);
      Filter(msgs, keep)
    else
      var keep := (m: Message, i: nat) => i != index;
      FilterFromDropsBlock(msgs, 0, keep, index, index + 1);
      Filter(msgs, keep)
  }

  /** A user message right after the deleted user message is never swallowed:
      it moves into the deleted message's place. */
  lemma DelKeepsNextQuestion(msgs: seq<Message>, index: nat)
    requires index + 1 < |msgs|
    requires msgs[index].role == User && msgs[index + 1].role == User
    ensures |Del(msgs, index)| == |msgs| - 1
    ensures Del(msgs, index)[index] == msgs[index + 1]
  {
  }

  /** Every message that survives a delete was in the transcript before, and
      every message other than the one or two removed survives. */
  lemma DelSurvivors(msgs: seq<Message>, index: nat, j: nat)
    requires index < |msgs| && j < |msgs|
    ensures j < index ==> Del(msgs, index)[j] == msgs[j]
    ensures TakesReply(msgs, index) && index + 2 <= j ==> Del(msgs, index)[j - 2] == msgs[j]
    ensures !TakesReply(msgs, index) && index + 1 <= j ==> Del(msgs, index)[j - 1] == msgs[j]
  {
  }

  // ---------------------------------------------------------------------------
  // reAnswer
  // ---------------------------------------------------------------------------

  /** What a regenerate computes: the question to resend and the new list. */
  datatype Regeneration = Regeneration(question: string, messages: seq<Message>)

  /** Regenerating the answer at index. On a user message the question is its
      own content and the removal is the same as a delete there; on any other
      message the question is the preceding message's content and that message
      goes too. The preceding message must exist: at index 0 `reAnswer` reads
      messages[-1] and throws. */
  function ReAnswer(msgs: seq<Message>, index: nat): (r: Regeneration)
    requires index < |msgs|
    requires msgs[index].role == User || index >= 1
    ensures msgs[index].role == User ==>
              r.question == msgs[index].content && r.messages == Del(msgs, index)
    ensures msgs[index].role != User ==>
              r.question == msgs[index - 1].content && r.messages == msgs[..index - 1] + msgs[index + 1..]
  {
    if msgs[index].role == User then
      Regeneration(msgs[index].content, Del(msgs, index))
    else
      var keep := (m: Message, i: nat) => !(i == index || i == index - 1);
      FilterFromDropsBlock(msgs, 0, keep, index - 1, index + 1);
      Regeneration(msgs[index - 1].content, Filter(msgs, keep))
  }

  // ---------------------------------------------------------------------------
  // lockMessage
  // ---------------------------------------------------------------------------

  /** The tag update of the lock toggle: a locked message is unlocked, any
      other tag (the absent one or `temporary`) becomes locked. */
  function Toggle(t: Tag): (r: Tag)
    ensures r == Locked <==> t != Locked
    ensures r != Temporary
  {
    if t == Locked then Untagged else Locked
  }

  /** The toggle undoes itself exactly on the tags it can produce. */
  lemma ToggleTwice(t: Tag)
    ensures Toggle(Toggle(t)) == t <==> t != Temporary
  {
  }

  /** The index a lock toggle may be given: absent, or in range, and when the
      message there is not a user message, with a message before it. */
  predicate LockableAt(msgs: seq<Message>, index: Option<nat>)
  {
    index.Some? ==> index.value < |msgs| && (msgs[index.value].role == User || index.value >= 1)
  }

  /** Whether position i is toggled when the item at index is clicked: on a
      user message, itself and the next message when that one is an assistant
      reply; otherwise the message before it and itself, without a role check. */
  predicate LockTarget(msgs: seq<Message>, index: nat, i: nat)
    requires index < |msgs|
  {
    if msgs[index].role == User then i == index || (i == index + 1 && i < |msgs| && msgs[i].role == Assistant)
    else i == index - 1 || i == index
  }

  function WithToggledTag(m: Message): Message
  {
    m.(tag := Toggle(m.tag))
  }

  /** The transcript after the lock toggle: the pair's tags flip, roles and
      contents are untouched, every other message is left as it was. */
  function LockPair(msgs: seq<Message>, index: Option<nat>): (r: seq<Message>)
    requires LockableAt(msgs, index)
    ensures |r| == |msgs|
    ensures forall i :: 0 <= i < |msgs| ==> r[i].role == msgs[i].role && r[i].content == msgs[i].content
    ensures index.None? ==> r == msgs
    ensures index.Some? && msgs[index.value].role == User ==>
              var k := index.value;
              r[k].tag == Toggle(msgs[k].tag) &&
              (k + 1 < |msgs| ==>
                 r[k + 1].tag == if msgs[k + 1].role == Assistant then Toggle(msgs[k + 1].tag) else msgs[k + 1].tag) &&
              forall i :: 0 <= i < |msgs| && i != k && i != k + 1 ==> r[i] == msgs[i]
    ensures index.Some? && msgs[index.value].role != User ==>
              var k := index.value;
              r[k - 1].tag == Toggle(msgs[k - 1].tag) && r[k].tag == Toggle(msgs[k].tag) &&
              forall i :: 0 <= i < |msgs| && i != k - 1 && i != k ==> r[i] == msgs[i]
  {
    match index
    case None => msgs
    case Some(k) =>
      seq(|msgs|, i requires 0 <= i < |msgs| => if LockTarget(msgs, k, i) then WithToggledTag(msgs[i]) else msgs[i])
  }

  /** Clicking the same item twice restores the transcript exactly when none
      of the toggled messages was still `temporary` (a temporary tag comes back
      as no tag). The second click sees the same pair, since roles do not change. */
  lemma {:induction false} LockTwice(msgs: seq<Message>, index: Option<nat>)
    requires LockableAt(msgs, index)
    ensures LockableAt(LockPair(msgs, index), index)
    ensures LockPair(LockPair(msgs, index), index) == msgs <==>
              (index.Some? ==> forall i :: 0 <= i < |msgs| && LockTarget(msgs, index.value, i) ==> msgs[i].tag != Temporary)
  {
    var once := LockPair(msgs, index);
    if index.Some? {
      var k := index.value;
      var twice := LockPair(once, index);
      assert forall i :: 0 <= i < |msgs| ==> (LockTarget(once, k, i) <==> LockTarget(msgs, k, i));
      assert forall i :: 0 <= i < |msgs| ==>
        twice[i] == if LockTarget(msgs, k, i) then msgs[i].(tag := Toggle(Toggle(msgs[i].tag))) else msgs[i];
      if twice == msgs {
        forall i | 0 <= i < |msgs| && LockTarget(msgs, k, i)
          ensures msgs[i].tag != Temporary
        {
          assert twice[i].tag == msgs[i].tag;
          ToggleTwice(msgs[i].tag);
        }
      }
      if forall i :: 0 <= i < |msgs| && LockTarget(msgs, k, i) ==> msgs[i].tag != Temporary {
        forall i | 0 <= i < |msgs|
          ensures twice[i] == msgs[i]
        {
          if LockTarget(msgs, k, i) { ToggleTwice(msgs[i].tag); }
        }
      }
    }
  }

  // ---------------------------------------------------------------------------
  // Concrete transcripts
  // ---------------------------------------------------------------------------

  /** Deleting a question removes its answer with it, but not a second
      question that follows directly; regenerating at an answer resends the
      question before it and removes both. */
  lemma Examples()
    ensures var hi := Message(User, "Hi", Untagged);
            var hello := Message(Assistant, "Hello", Untagged);
            var bye := Message(User, "Bye", Untagged);
            Del([hi, hello], 0) == [] &&
            Del([hi, hello, bye], 0) == [bye] &&
            Del([hi, bye, hello], 0) == [bye, hello]
    ensures var q1 := Message(User, "Q1", Untagged);
            var a1 := Message(Assistant, "A1", Untagged);
            ReAnswer([q1, a1], 1) == Regeneration("Q1", [])
  {
  }
}
