/** The page's session state across reruns: the local message history that
    every submitted prompt extends with a user turn and, when the streaming
    loop gets through, the assistant turn it built; and the id of the
    assistant thread, created with the first prompt and kept afterwards. */
module Session {
  import opened Events
  import opened Reducer
  import opened StreamLoop

  /** The history entry for a submitted prompt: one text item. */
  function UserTurn(prompt: string): (t: Turn)
    ensures t.role == User && |t.items| == 1 && t.items[0].content == prompt
  {
    Turn(User, [Text(prompt)])
  }

  /** The history after one prompt: an empty prompt submits nothing; otherwise
      the user turn is stored before the stream starts, and the assistant turn
      only if the loop ends without an exception. */
  function AfterSubmit(history: seq<Turn>, prompt: string, outcome: Result<seq<Block>>): (h: seq<Turn>)
    ensures prompt == "" ==> h == history
    ensures prompt != "" ==> |h| == |history| + (if outcome.Ok? then 2 else 1)
    ensures h[..|history|] == history
    ensures prompt != "" ==> h[|history|] == UserTurn(prompt)
    ensures prompt != "" && outcome.Ok? ==> h[|history| + 1] == Turn(Assistant, outcome.value)
  {
    if prompt == "" then history
    else if outcome.Ok? then history + [UserTurn(prompt), Turn(Assistant, outcome.value)]
    else history + [UserTurn(prompt)]
  }

  /** Every assistant turn answers the user turn just before it, and the
      history starts with a user turn. */
  ghost predicate Alternates(h: seq<Turn>)
  {
    forall k :: 0 <= k < |h| && h[k].role == Assistant ==> k > 0 && h[k - 1].role == User
  }

  /** Submitting keeps the history alternating, whether the stream gets
      through or not. */
  lemma AfterSubmitAlternates(history: seq<Turn>, prompt: string, outcome: Result<seq<Block>>)
    requires Alternates(history)
    ensures Alternates(AfterSubmit(history, prompt, outcome))
  {
    var h := AfterSubmit(history, prompt, outcome);
    forall k | 0 <= k < |h| && h[k].role == Assistant
      ensures k > 0 && h[k - 1].role == User
    {
      if k < |history| {
        assert h[k] == history[k] && h[k - 1] == history[k - 1];
      }
    }
  }

  /** The number of user turns in a history. */
  function UserTurns(h: seq<Turn>): (n: nat)
    ensures n <= |h|
  {
    if h == [] then 0
    else UserTurns(h[..|h| - 1]) + (if h[|h| - 1].role == User then 1 else 0)
  }

  lemma {:induction false} UserTurnsAppend(h: seq<Turn>, more: seq<Turn>)
    ensures UserTurns(h + more) == UserTurns(h) + UserTurns(more)
    decreases |more|
  {
    if more == [] {
      assert h + more == h;
    } else {
      var front := more[..|more| - 1];
      assert (h + more)[..|h + more| - 1] == h + front;
      UserTurnsAppend(h, front);
    }
  }

  /** Each non-empty prompt adds exactly one user turn, so the history holds
      every prompt even when the stream ended in an exception. */
  lemma UserTurnsCountPrompts(history: seq<Turn>, prompt: string, outcome: Result<seq<Block>>)
    ensures UserTurns(AfterSubmit(history, prompt, outcome)) == UserTurns(history) + (if prompt == "" then 0 else 1)
  {
    if prompt != "" {
      var added := if outcome.Ok? then [UserTurn(prompt), Turn(Assistant, outcome.value)] else [UserTurn(prompt)];
      UserTurnsAppend(history, added);
      assert added[..1] == [UserTurn(prompt)];
      assert [UserTurn(prompt)][..0] == [];
    }
  }

  class ChatSession {
    /** The session's message history. */
    var messages: seq<Turn>
    /** The session's assistant thread, absent until the first prompt. */
    var threadId: Option<string>

    ghost predicate Valid()
      reads this
    {
      Alternates(messages)
    }

    /** A fresh session: empty history, no thread yet. */
    constructor ()
      ensures messages == [] && threadId == None
      ensures Valid()
    {
      messages := [];
      threadId := None;
    }

    /** One submitted prompt. `events` is what the assistant run streams back and
        `newThread` the id the service would give a new thread. An empty prompt
        does nothing; otherwise the user turn is stored, the thread is created
        if there is none, and the loop's blocks are stored as the assistant turn
        unless the loop raised. */
    method Submit(prompt: string, events: seq<Event>, cfg: Config, newThread: string)
      returns (outcome: Option<Result<seq<Block>>>)
      requires Valid()
      modifies this
      ensures Valid()
      ensures outcome == if prompt == "" then None else Some(Reduce(events, cfg))
      ensures prompt == "" ==> messages == old(messages) && threadId == old(threadId)
      ensures prompt != "" ==> messages == AfterSubmit(old(messages), prompt, outcome.value)
      ensures prompt != "" ==> threadId == if old(threadId).None? then Some(newThread) else old(threadId)
    {
      if prompt == "" {
        return None;
      }
      ghost var before := messages;
      messages := messages + [UserTurn(prompt)];
      if threadId.None? {
        threadId := Some(newThread);
      }
      var result := ReduceStream(events, cfg);
      if result.Ok? {
        messages := messages + [Turn(Assistant, result.value)];
      }
      outcome := Some(result);
      assert messages == AfterSubmit(before, prompt, result);
      AfterSubmitAlternates(before, prompt, result);
    }
  }
}
