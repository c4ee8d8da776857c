/**
 The collaboration listeners of the editor page as a reducer: each socket event the
 page listens to updates one field of the client state. The listeners are closures
 registered once per room, so a non-string code or language payload falls back to
 the value the page held when they were registered, not to the current one.
 */
module Collab {
  import opened Values
  import opened Presence

  /** The part of the page's state the socket listeners write. */
  datatype ClientState = ClientState(
    messages: seq<JsValue>,
    code: string,
    selectedLanguage: string,
    typing: string,
    users: seq<Member>
  )

  /** What the listeners captured when they were registered. */
  datatype Listeners = Listeners(userName: string, code: string, selectedLanguage: string)

  /** The incoming socket events, each with its untyped payload. */
  datatype Event =
    | ChatHistory(msgs: JsValue)
    | ReceiveMessage(msg: JsValue)
    | CodeUpdate(newCode: JsValue)
    | UserTyping(user: JsValue)
    | LanguageUpdate(newLang: JsValue)
    | UserJoined(usersInRoom: JsValue)

  /** The state the page starts from before any event arrives. */
  const InitialState := ClientState([], "// Start coding here...", "typescript", "", [])

  const TypingSuffix := " is typing..."

  /** A string payload, or the fallback for anything else. */
  function StringOr(v: JsValue, fallback: string): (r: string)
    ensures v.Str? ==> r == v.s
    ensures !v.Str? ==> r == fallback
  {
    if v.Str? then v.s else fallback
  }

  /** The typing notice for a `userTyping` payload, or nothing for the user's own name. */
  function TypingNotice(userName: string, user: JsValue): (r: Option<string>)
    ensures r.None? <==> user == Str(userName)
    ensures r.Some? ==> r.value == ToText(user) + TypingSuffix
  {
    if user != Str(userName) then Some(ToText(user) + TypingSuffix) else None
  }

  /** One socket event applied to the client state. */
  function Step(l: Listeners, st: ClientState, e: Event): (st': ClientState)
    // every listener writes one field and leaves the others alone
    ensures !e.ChatHistory? && !e.ReceiveMessage? ==> st'.messages == st.messages
    ensures !e.CodeUpdate? ==> st'.code == st.code
    ensures !e.LanguageUpdate? ==> st'.selectedLanguage == st.selectedLanguage
    ensures !e.UserTyping? ==> st'.typing == st.typing
    ensures !e.UserJoined? ==> st'.users == st.users
    // chat history replaces the transcript with the array, or empties it
    ensures e.ChatHistory? && e.msgs.Arr? ==> st'.messages == e.msgs.items
    ensures e.ChatHistory? && !e.msgs.Arr? ==> st'.messages == []
    // a received message extends the transcript by exactly that message
    ensures e.ReceiveMessage? ==> |st'.messages| == |st.messages| + 1
    ensures e.ReceiveMessage? ==> st'.messages[..|st.messages|] == st.messages
    ensures e.ReceiveMessage? ==> st'.messages[|st.messages|] == e.msg
    // string payloads win; anything else restores the captured value
    ensures e.CodeUpdate? ==> st'.code == StringOr(e.newCode, l.code)
    ensures e.LanguageUpdate? ==> st'.selectedLanguage == StringOr(e.newLang, l.selectedLanguage)
    // the user's own typing notice is ignored
    ensures e.UserTyping? && e.user == Str(l.userName) ==> st'.typing == st.typing
    ensures e.UserTyping? && e.user != Str(l.userName) ==> st'.typing == ToText(e.user) + TypingSuffix
    // presence is rebuilt from the payload
    ensures e.UserJoined? ==> st'.users == Roster(e.usersInRoom)
  {
    match e
    case ChatHistory(msgs) => st.(messages := ArrayItems(msgs))
    case ReceiveMessage(msg) => st.(messages := st.messages + [msg])
    case CodeUpdate(newCode) => st.(code := StringOr(newCode, l.code))
    case UserTyping(user) => st.(typing := TypingNotice(l.userName, user).GetOr(st.typing))
    case LanguageUpdate(newLang) => st.(selectedLanguage := StringOr(newLang, l.selectedLanguage))
    case UserJoined(usersInRoom) => st.(users := Roster(usersInRoom))
  }

  /** A sequence of events applied in arrival order. */
  function Run(l: Listeners, st: ClientState, es: seq<Event>): ClientState
    decreases |es|
  {
    if |es| == 0 then st else Step(l, Run(l, st, es[..|es| - 1]), es[|es| - 1])
  }

  /** Running two batches one after the other is running their concatenation. */
  lemma {:induction false} RunConcat(l: Listeners, st: ClientState, a: seq<Event>, b: seq<Event>)
    ensures Run(l, st, a + b) == Run(l, Run(l, st, a), b)
    decreases |b|
  {
    if |b| == 0 {
      assert a + b == a;
    } else {
      var b' := b[..|b| - 1];
      RunConcat(l, st, a, b');
      assert (a + b)[..|a + b| - 1] == a + b';
    }
  }

  /** The payloads of the `receiveMessage` events in `es`, in order. */
  function Received(es: seq<Event>): seq<JsValue>
    decreases |es|
  {
    if |es| == 0 then []
    else Received(es[..|es| - 1]) + (if es[|es| - 1].ReceiveMessage? then [es[|es| - 1].msg] else [])
  }

  predicate NoHistoryReplay(es: seq<Event>) {
    forall i | 0 <= i < |es| :: !es[i].ChatHistory?
  }

  /**
   Without a history replay the transcript only grows: the old transcript stays a
   prefix and the received messages follow it in arrival order.
   */
  lemma {:induction false} TranscriptOnlyGrows(l: Listeners, st: ClientState, es: seq<Event>)
    requires NoHistoryReplay(es)
    ensures Run(l, st, es).messages == st.messages + Received(es)
    decreases |es|
  {
    if |es| > 0 {
      TranscriptOnlyGrows(l, st, es[..|es| - 1]);
    }
  }

  /**
   After a history replay, the transcript is the replayed array followed by the
   messages received since, in order.
   */
  lemma ReplayThenAppend(l: Listeners, st: ClientState, history: JsValue, es: seq<Event>)
    requires NoHistoryReplay(es)
    ensures Run(l, st, [ChatHistory(history)] + es).messages == ArrayItems(history) + Received(es)
  {
    RunConcat(l, st, [ChatHistory(history)], es);
    assert [ChatHistory(history)][..0] == [];
    TranscriptOnlyGrows(l, Run(l, st, [ChatHistory(history)]), es);
  }

  /** Last writer wins: the code is set by the last `codeUpdate`, or unchanged without one. */
  lemma {:induction false} LastCodeUpdateWins(l: Listeners, st: ClientState, es: seq<Event>, k: int)
    requires -1 <= k < |es|
    requires k >= 0 ==> es[k].CodeUpdate?
    requires forall i | k < i < |es| :: !es[i].CodeUpdate?
    ensures k >= 0 ==> Run(l, st, es).code == StringOr(es[k].newCode, l.code)
    ensures k < 0 ==> Run(l, st, es).code == st.code
    decreases |es|
  {
    if |es| > 0 && k < |es| - 1 {
      LastCodeUpdateWins(l, st, es[..|es| - 1], k);
    }
  }

  /** Last writer wins for the language, too. */
  lemma {:induction false} LastLanguageUpdateWins(l: Listeners, st: ClientState, es: seq<Event>, k: int)
    requires -1 <= k < |es|
    requires k >= 0 ==> es[k].LanguageUpdate?
    requires forall i | k < i < |es| :: !es[i].LanguageUpdate?
    ensures k >= 0 ==> Run(l, st, es).selectedLanguage == StringOr(es[k].newLang, l.selectedLanguage)
    ensures k < 0 ==> Run(l, st, es).selectedLanguage == st.selectedLanguage
    decreases |es|
  {
    if |es| > 0 && k < |es| - 1 {
      LastLanguageUpdateWins(l, st, es[..|es| - 1], k);
    }
  }

  /** Typing notices carrying the user's own name never change the indicator. */
  lemma {:induction false} OwnTypingIgnored(l: Listeners, st: ClientState, es: seq<Event>)
    requires forall i | 0 <= i < |es| :: es[i].UserTyping? ==> es[i].user == Str(l.userName)
    ensures Run(l, st, es).typing == st.typing
    decreases |es|
  {
    if |es| > 0 {
      OwnTypingIgnored(l, st, es[..|es| - 1]);
    }
  }

  /** Every presence list the page ever holds is well formed. */
  lemma {:induction false} RosterStaysWellFormed(l: Listeners, st: ClientState, es: seq<Event>)
    requires WellFormedRoster(st.users)
    ensures WellFormedRoster(Run(l, st, es).users)
    decreases |es|
  {
    if |es| > 0 {
      RosterStaysWellFormed(l, st, es[..|es| - 1]);
    }
  }

  /**
   From the state the page starts in, the presence list is always well formed,
   and without a history replay the transcript is exactly the received messages.
   */
  lemma FromInitialState(l: Listeners, es: seq<Event>)
    ensures WellFormedRoster(Run(l, InitialState, es).users)
    ensures NoHistoryReplay(es) ==> Run(l, InitialState, es).messages == Received(es)
  {
    RosterStaysWellFormed(l, InitialState, es);
    if NoHistoryReplay(es) {
      TranscriptOnlyGrows(l, InitialState, es);
    }
  }
}
