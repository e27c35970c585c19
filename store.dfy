/** The root store a message item writes to: the message list, replaced whole
    by delete and regenerate and updated element by element by the lock
    toggle, and the contents of the input box, which edit fills. */
module Store {
  import opened Wrappers
  import opened Transcript

  /** One call of the optional resend callback: the question handed to it and
      the message list it finds in the store when it runs. */
  datatype Send = Send(question: string, transcript: seq<Message>)

  class ChatStore {
    var messageList: array<Message>
    var inputContent: string
    /** The calls of the resend callback made so far, in order. */
    ghost var sends: seq<Send>

    constructor (initial: seq<Message>)
      ensures fresh(messageList) && messageList[..] == initial
      ensures inputContent == [] && sends == []
    {
      messageList := new Message[|initial|](i requires 0 <= i < |initial| => initial[i]);
      inputContent := [];
      sends := [];
    }

    /** edit: the input box is seeded with the item's message; the message
        list is not touched. */
    method Edit(message: Message)
      modifies this`inputContent
      ensures inputContent == message.content
    {
      inputContent := message.content;
    }

    /** del: the list is replaced by a fresh one without the item's message
        and, for a user message, without the reply it took. */
    method Delete(index: nat)
      requires index < messageList.Length
      modifies this`messageList
      ensures fresh(messageList)
      ensures messageList[..] == Del(old(messageList[..]), index)
    {
      var next := Del(messageList[..], index);
      messageList := new Message[|next|](i requires 0 <= i < |next| => next[i]);
    }

    /** reAnswer: the list is replaced first, then the resend callback, when
        there is one, is called once with the question and sees the new list. */
    method ReAnswer(index: nat, hasSender: bool) returns (question: string)
      requires index < messageList.Length
      requires messageList[index].role == User || index >= 1
      modifies this`messageList, this`sends
      ensures fresh(messageList)
      ensures var r := Transcript.ReAnswer(old(messageList[..]), index);
              question == r.question && messageList[..] == r.messages
      ensures sends == old(sends) + if hasSender then [Send(question, messageList[..])] else []
    {
      var r := Transcript.ReAnswer(messageList[..], index);
      question := r.question;
      messageList := new Message[|r.messages|](i requires 0 <= i < |r.messages| => r.messages[i]);
      if hasSender {
        sends := sends + [Send(question, messageList[..])];
      }
    }

    /** lockMessage: the tags of the pair are flipped in place. On a user
        message the store visits every element and flips those the path
        filter selects; otherwise it flips the two elements index-1 and index. */
    method LockMessage(index: Option<nat>)
      requires LockableAt(messageList[..], index)
      modifies messageList
      ensures messageList[..] == LockPair(old(messageList[..]), index)
    {
      if index.None? {
        return;
      }
      var k := index.value;
      ghost var before := messageList[..];
      if messageList[k].role == User {
        var i := 0;
        while i < messageList.Length
          invariant 0 <= i <= messageList.Length
          invariant forall j :: 0 <= j < i ==> messageList[j] == LockPair(before, index)[j]
          invariant forall j :: i <= j < messageList.Length ==> messageList[j] == before[j]
        {
          var m := messageList[i];
          if i == k || (i == k + 1 && m.role == Assistant) {
            messageList[i] := m.(tag := Toggle(m.tag));
          }
          i := i + 1;
        }
      } else {
        var prev := messageList[k - 1];
        messageList[k - 1] := prev.(tag := Toggle(prev.tag));
        var cur := messageList[k];
        messageList[k] := cur.(tag := Toggle(cur.tag));
      }
      assert messageList[..] == LockPair(before, index);
    }
  }

  /** Regenerating the answer of a one-pair conversation empties the list and
      resends the question once, and that call sees the empty list. */
  method ReAnswerOnePair() returns (question: string, remaining: seq<Message>, ghost sends: seq<Send>)
    ensures question == "Q1" && remaining == []
    ensures sends == [Send("Q1", [])]
  {
    var store := new ChatStore([Message(User, "Q1", Untagged), Message(Assistant, "A1", Untagged)]);
    question := store.ReAnswer(1, true);
    remaining := store.messageList[..];
    sends := store.sends;
  }
}
