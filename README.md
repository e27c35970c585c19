# Chat message item: transcript mutations and answer playback

This project models the logic of the chat UI's message item
(`fronted/src/components/Chat/MessageItem.tsx`) in Dafny and proves
properties of it.

A conversation is an ordered list of messages. Each message has a role
(`user`, `assistant`, `system`, `error`), a content string and an optional
`type` tag (`temporary` while streaming, `locked` when the user has pinned a
question/answer pair). Pairs are not stored anywhere. A `user` message and the
message right after it count as a pair purely because they are adjacent.

- `transcript.dfy`, module `Transcript`: the pure transformations. It defines
  `Array.prototype.filter` with an index-aware callback (`FilterFrom`), `del`
  (`Del`), `reAnswer` (`ReAnswer`, which gives the question to resend and the
  new list), and the lock toggle as a function on the list (`LockPair`). It
  also proves the lemmas that tie each one to a plain slice description of
  its result.
- `store.dfy`, module `Store`: the root store as a class. `messageList` is an
  array and `inputContent` is a string. `Delete` and `ReAnswer` replace the
  array with a fresh one, as the store's updater functions return a new
  filtered list. `LockMessage` flips tags in place, as the store's path
  writes do. A ghost log `sends` records each call of the optional
  `sendMessage` callback, together with the list that call finds in the store.
- `playback.dfy`, module `Playback`: the single audio handle behind
  `playAnswer`. `Player.current` is the nullable handle and `AudioHandle.paused`
  is the element's paused flag. The HTTP response is reduced to the parameter
  `responseOk`, and a ghost log `requests` records the speech request bodies
  sent.
- `wrappers.dfy`, module `Wrappers`: `Option`, used for the optional index
  and the nullable handle.

Two behaviours of the code worth knowing:

- Two clicks of the lock restore a pair only when neither message was
  `temporary`: line 132 of `MessageItem.tsx` maps `temporary` to `locked` and
  `locked` to no tag. `Transcript.LockTwice` proves this condition in both
  directions.
- A failed speech request is thrown and caught inside `playAnswer` (lines
  94-96 and 118-120). The method then returns `false` and leaves the handle
  as it was, which is what `PlayAnswer` models.

## Model

| member | source | states |
|---|---|---|
| Transcript.FilterFrom | fronted/src/components/Chat/MessageItem.tsx:42-50 | the filter keeps at most the elements it scans, and only elements of the input |
| Transcript.FilterFromDropsBlock | fronted/src/components/Chat/MessageItem.tsx:40-51 | a filter whose callback rejects exactly one contiguous block of indices returns the input with that block cut out, with all other messages in order and unchanged |
| Transcript.Del | fronted/src/components/Chat/MessageItem.tsx:39-52 | `del` at a user index removes that message and the next one exactly when the next one exists and is not `user` (length drops by 2), otherwise it removes only the target (length drops by 1); the result is the input with that slice removed |
| Transcript.DelKeepsNextQuestion | fronted/src/components/Chat/MessageItem.tsx:41-48 | a `user` message right after a deleted `user` message is never removed and moves into the deleted message's place |
| Transcript.DelSurvivors | fronted/src/components/Chat/MessageItem.tsx:40-51 | every message before the deleted one keeps its position, and every message after the removed block shifts down by the block's size, with its contents unchanged |
| Transcript.ReAnswer | fronted/src/components/Chat/MessageItem.tsx:54-72 | at a user index the question is that message's content and the new list is the one `del` leaves at that index (the same filter, lines 59-65 and 42-48); at any other index (which must be at least 1) the question is the previous message's content and exactly indices index-1 and index are removed |
| Transcript.Toggle | fronted/src/components/Chat/MessageItem.tsx:132 | the toggled tag is `locked` exactly when the old tag was not `locked`, and it is never `temporary` |
| Transcript.ToggleTwice | fronted/src/components/Chat/MessageItem.tsx:132 | toggling twice restores a tag if and only if the tag was not `temporary` |
| Transcript.LockPair | fronted/src/components/Chat/MessageItem.tsx:123-139 | with no index nothing changes; at a user index, the target's tag flips and the next one flips only when it is `assistant`; at any other index, index-1 and index flip; roles and contents never change, and every other message is unchanged |
| Transcript.LockTwice | fronted/src/components/Chat/MessageItem.tsx:123-139 | the second click is legal and selects the same pair; two clicks restore the transcript if and only if no toggled message was `temporary` |
| Transcript.Examples | fronted/src/components/Chat/MessageItem.tsx:39-72 | `[user Hi, assistant Hello]` deletes at 0 to `[]`; `[user Hi, assistant Hello, user Bye]` deletes at 0 to `[user Bye]`; `[user Hi, user Bye, assistant Hello]` deletes at 0 to `[user Bye, assistant Hello]`; `[user Q1, assistant A1]` regenerated at 1 gives question `Q1` and `[]` |
| Store.ChatStore.Edit | fronted/src/components/Chat/MessageItem.tsx:35-37 | the input box holds the message's content, and nothing else in the store changes |
| Store.ChatStore.Delete | fronted/src/components/Chat/MessageItem.tsx:39-52 | the store's list is replaced by a fresh list equal to `Del` of the old list |
| Store.ChatStore.ReAnswer | fronted/src/components/Chat/MessageItem.tsx:54-74 | the list becomes `ReAnswer`'s new list and the returned question is its question; when a callback exists it is called exactly once with that question and sees the updated list; with no callback, no call is made |
| Store.ChatStore.LockMessage | fronted/src/components/Chat/MessageItem.tsx:123-139 | the array is updated in place to `LockPair` of its old contents, by a scan over every element on a user index and by two point writes otherwise |
| Store.ReAnswerOnePair | fronted/src/components/Chat/MessageItem.tsx:54-74 | regenerating at 1 in `[user Q1, assistant A1]` returns question `Q1`, leaves an empty list, and calls the resend callback exactly once, with `Q1`, while the list is already empty |
| Playback.AudioHandle.Play | fronted/src/components/Chat/MessageItem.tsx:102-112 | a new audio element that has been told to play is not paused |
| Playback.AudioHandle.Pause | fronted/src/components/Chat/MessageItem.tsx:82 | after pausing, the element is paused |
| Playback.Player.constructor | fronted/src/components/Chat/MessageItem.tsx:75 | playback starts with no handle and no requests |
| Playback.Player.PlayAnswer | fronted/src/components/Chat/MessageItem.tsx:77-122 | if the handle is playing, it is paused and cleared, no request is made, and the result is false; otherwise exactly one request (content, voice) is made and the old handle's paused flag is untouched; a non-ok response gives false and leaves the handle as it was; an ok response stores a fresh, playing handle and gives true |
| Playback.Player.Ended | fronted/src/components/Chat/MessageItem.tsx:106-109 | when a handle's playback ends, that handle is paused and the current handle is cleared, whichever handle was current; no request is made |
| Playback.ClickTwice | fronted/src/components/Chat/MessageItem.tsx:77-122 | from idle, a click with an ok response starts playback and returns true; a second click while it plays returns false and clears the handle; the only request made is the first click's (content, voice) |

## Left out

- Markdown rendering: the worker call `renderMarkdownInWorker`, the 50 ms
  `throttle` for temporary messages and the `createEffect` that picks between
  them (lines 141-155). These are asynchronous, timed calls into a worker,
  with no sequential logic of their own.
- The JSX view, the `roleClass` colour map and the regular-expression
  replacement of the words Vercel and OpenAI with logo links (lines 24-29,
  157-205). These are presentation only.
- `copy` (lines 31-33). It is a single call into the clipboard API.
- Inside `playAnswer`: the `fetch`, the `ArrayBuffer`/`Blob`/object URL
  conversion and the `Audio` element. They are reduced to the `responseOk`
  parameter, the `requests` log and `AudioHandle`. The model also leaves out
  the `await` points, so a second click that arrives while a request is
  still pending is not modelled, and neither is a `play()` promise that the
  browser rejects.
- `fronted/src/routes/api/tts.ts`, `fronted/src/components/speech/speech.tsx`
  and `fronted/src/markdown-it/index.ts`. They are thin wrappers over the
  speech service and markdown-it/highlight.js, and this model does not cover
  them.
- Aliasing between the store's proxied message objects and other references
  to them. The model's array holds message values, so an in-place tag write
  changes only the store's copy.
- Transcript.Del: an index out of range (or an undefined index) makes `del`
  throw when it reads `messages[index].role`. The model excludes this with
  `requires index < |msgs|` rather than modelling the exception.
- Transcript.ReAnswer: an index out of range or undefined throws as in `del`.
  A non-user message at index 0 throws on `messages[-1].content` (line 67),
  before the list or the callback is touched. Both cases are excluded by
  `requires` rather than modelled as an exception.
- Transcript.LockPair: a non-user message at index 0 makes the store path
  write on key -1 throw before anything is written (line 135). An index
  out of range throws on the role read at line 125. Both are excluded by
  `LockableAt` rather than modelled as an exception. An undefined index is
  modelled, as a no-op.
- Store.ChatStore.Delete, Store.ChatStore.ReAnswer, Store.ChatStore.LockMessage:
  the same thrown cases are excluded by the same `requires`. The model
  therefore does not state that a thrown update leaves the store unchanged.
- Playback.Player.PlayAnswer: the `console.error` logging in the catch
  (line 119) is left out, as console output with no effect on state.
