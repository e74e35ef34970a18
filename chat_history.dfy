/** The chat history hook (src/hooks/useChatHistory.js): on mount the stored
    history is loaded and cut to start at the earliest of its last
    `MAX_CHAT_HISTORY` user messages; saving stores the loaded history
    followed by the current chat; a button toggles the history panel.
    Local storage is modelled by the decoded value it holds. */
module ChatHistory {
  import opened Wrappers
  import opened JsText
  import opened Messages

  /** The indexes `i >= from` of user messages, ascending:
      `history.map((entry, index) => entry.isUserMessage ? index : undefined)
              .filter((index) => index !== undefined)`. */
  function UserIndexesFrom(h: seq<ChatMessage>, from: nat): (r: seq<nat>)
    requires from <= |h|
    ensures forall j :: 0 <= j < |r| ==> from <= r[j] < |h| && h[r[j]].isUserMessage
    decreases |h| - from
  {
    if from == |h| then []
    else (if h[from].isUserMessage then [from] else []) + UserIndexesFrom(h, from + 1)
  }

  function UserIndexes(h: seq<ChatMessage>): seq<nat> {
    UserIndexesFrom(h, 0)
  }

  /** The user messages of a history, in order. */
  function UserMessages(h: seq<ChatMessage>): seq<ChatMessage> {
    if h == [] then []
    else (if h[0].isUserMessage then [h[0]] else []) + UserMessages(h[1..])
  }

  /** The trimming pipeline of the load effect. */
  function TrimHistory(h: seq<ChatMessage>, maxChatHistory: int): seq<ChatMessage> {
    var lastUserMessagesIndexes := SliceFrom(UserIndexes(h), -maxChatHistory);
    if |lastUserMessagesIndexes| == 0 then h else h[lastUserMessagesIndexes[0]..]
  }

  // ---------------------------------------------------------------------
  // Counting user messages through their indexes

  lemma {:induction false} UserIndexesCount(h: seq<ChatMessage>, i: nat)
    requires i <= |h|
    ensures |UserIndexesFrom(h, i)| == |UserMessages(h[i..])|
    decreases |h| - i
  {
    if i < |h| {
      assert h[i..][1..] == h[i + 1..];
      UserIndexesCount(h, i + 1);
    }
  }

  /** Cutting at the `j`-th user index from `i` keeps exactly the user
      messages from the `j`-th on. */
  lemma {:induction false} CutAtUserIndex(h: seq<ChatMessage>, i: nat, j: nat)
    requires i <= |h| && j < |UserIndexesFrom(h, i)|
    ensures var k := UserIndexesFrom(h, i)[j];
      |UserMessages(h[i..])| == |UserIndexesFrom(h, i)| && UserMessages(h[k..]) == UserMessages(h[i..])[j..]
    decreases |h| - i
  {
    UserIndexesCount(h, i);
    UserIndexesCount(h, i + 1);
    var ix := UserIndexesFrom(h, i);
    assert h[i..][1..] == h[i + 1..];
    if h[i].isUserMessage {
      assert ix == [i] + UserIndexesFrom(h, i + 1);
      if j > 0 {
        CutAtUserIndex(h, i + 1, j - 1);
        assert ix[j] == UserIndexesFrom(h, i + 1)[j - 1];
        var us := UserMessages(h[i..]);
        assert us == [h[i]] + UserMessages(h[i + 1..]);
        assert us[j..] == UserMessages(h[i + 1..])[j - 1..];
      }
    } else {
      assert ix == UserIndexesFrom(h, i + 1);
      CutAtUserIndex(h, i + 1, j);
    }
  }

  /** Without user messages there is no user index. */
  lemma {:induction false} NoUserIndexes(h: seq<ChatMessage>, i: nat)
    requires i <= |h| && forall k :: i <= k < |h| ==> !h[k].isUserMessage
    ensures UserIndexesFrom(h, i) == []
    decreases |h| - i
  {
    if i < |h| {
      NoUserIndexes(h, i + 1);
    }
  }

  // ---------------------------------------------------------------------
  // Properties of the trim

  /** A history without user messages is loaded unchanged. */
  lemma NoUserMessagesUnchanged(h: seq<ChatMessage>, maxChatHistory: int)
    requires forall k :: 0 <= k < |h| ==> !h[k].isUserMessage
    ensures TrimHistory(h, maxChatHistory) == h
  {
    NoUserIndexes(h, 0);
  }

  /** The number of user messages the trim keeps: the last MAX of them,
      or all when there are fewer or MAX is 0. */
  function KeptCount(total: nat, maxChatHistory: int): (m: nat)
    requires maxChatHistory >= 0
    ensures m <= total
  {
    if maxChatHistory == 0 || total <= maxChatHistory then total else maxChatHistory
  }

  /** With user messages, the trim cuts at the earliest kept user index. */
  lemma TrimCutsAtKeptIndex(h: seq<ChatMessage>, maxChatHistory: int)
    requires maxChatHistory >= 0 && UserIndexes(h) != []
    ensures var ix := UserIndexes(h);
      TrimHistory(h, maxChatHistory) == h[ix[|ix| - KeptCount(|ix|, maxChatHistory)]..]
  {
    var ix := UserIndexes(h);
    var n := |ix|;
    var m := KeptCount(n, maxChatHistory);
    assert RelativeIndex(-maxChatHistory, n) == n - m;
  }

  /** With user messages and a non-negative bound, the loaded history is a
      suffix of the stored one that starts with a user message and keeps
      the last min(total, MAX) user messages, in their order; a bound of 0
      (`slice(-0)` keeps every index) keeps all of them, cutting only what
      precedes the first. */
  lemma TrimKeepsLastUserMessages(h: seq<ChatMessage>, maxChatHistory: int)
    requires maxChatHistory >= 0 && UserMessages(h) != []
    ensures var t, us := TrimHistory(h, maxChatHistory), UserMessages(h);
      && |t| <= |h| && t == h[|h| - |t|..]
      && t != [] && t[0].isUserMessage
      && UserMessages(t) == us[|us| - KeptCount(|us|, maxChatHistory)..]
  {
    var ix := UserIndexes(h);
    var n := |ix|;
    UserPositions(h, 0);
    var m := KeptCount(n, maxChatHistory);
    TrimCutsAtKeptIndex(h, maxChatHistory);
    UserPositions(h, n - m);
    var k := ix[n - m];
    assert h[k..][0] == h[k];
  }

  /** The user indexes of a whole history, one per user message; cutting
      at the `j`-th keeps the user messages from the `j`-th on. */
  lemma UserPositions(h: seq<ChatMessage>, j: nat)
    requires j < |UserIndexes(h)| || j == 0
    ensures |UserIndexes(h)| == |UserMessages(h)|
    ensures j < |UserIndexes(h)| ==> UserMessages(h[UserIndexes(h)[j]..]) == UserMessages(h)[j..]
  {
    assert h[0..] == h;
    UserIndexesCount(h, 0);
    if j < |UserIndexes(h)| {
      CutAtUserIndex(h, 0, j);
    }
  }

  /** Loading an already trimmed history changes nothing more. */
  lemma TrimIdempotent(h: seq<ChatMessage>, maxChatHistory: int)
    requires maxChatHistory >= 0
    ensures TrimHistory(TrimHistory(h, maxChatHistory), maxChatHistory) == TrimHistory(h, maxChatHistory)
  {
    var t := TrimHistory(h, maxChatHistory);
    UserPositions(h, 0);
    if UserMessages(h) != [] {
      TrimKeepsLastUserMessages(h, maxChatHistory);
      UserPositions(t, 0);
      var ix := UserIndexes(t);
      assert ix[0] == 0;
      assert KeptCount(|ix|, maxChatHistory) == |ix|;
      TrimCutsAtKeptIndex(t, maxChatHistory);
      assert t[0..] == t;
    }
  }

  // ---------------------------------------------------------------------
  // The hook's state

  class ChatHistoryStore {
    /** `MAX_CHAT_HISTORY` */
    const maxChatHistory: int
    var chatHistory: seq<ChatMessage>
    var showChatHistory: bool
    /** The history held in local storage, decoded; `None` when nothing
        readable is stored. */
    var stored: Option<seq<ChatMessage>>

    /** Mounting the hook: empty history, panel hidden. */
    constructor(maxChatHistory: int, stored: Option<seq<ChatMessage>>)
      ensures this.maxChatHistory == maxChatHistory && this.stored == stored
      ensures chatHistory == [] && !showChatHistory
    {
      this.maxChatHistory := maxChatHistory;
      this.stored := stored;
      chatHistory := [];
      showChatHistory := false;
    }

    /** The load effect: a readable stored history is trimmed and becomes
        the history; a missing or unreadable one leaves it as it was. */
    method Load()
      modifies this
      ensures stored == old(stored) && showChatHistory == old(showChatHistory)
      ensures chatHistory == if stored.Some? then TrimHistory(stored.value, maxChatHistory) else old(chatHistory)
    {
      match stored {
        case Some(history) =>
          chatHistory := TrimHistory(history, maxChatHistory);
        case None =>
      }
    }

    /** `saveChatHistory(currentChat)`: stores the loaded history followed by
        the current chat, unless the storage write fails; the hook's own
        history is not changed. */
    method Save(currentChat: seq<ChatMessage>, writeSucceeds: bool)
      modifies this
      ensures chatHistory == old(chatHistory) && showChatHistory == old(showChatHistory)
      ensures stored == if writeSucceeds then Some(old(chatHistory) + currentChat) else old(stored)
    {
      var newChatHistory := chatHistory + currentChat;
      if writeSucceeds {
        stored := Some(newChatHistory);
      }
    }

    /** The history button's click handler. */
    method Toggle()
      modifies this
      ensures showChatHistory == !old(showChatHistory)
      ensures chatHistory == old(chatHistory) && stored == old(stored)
    {
      showChatHistory := !showChatHistory;
    }
  }

  /** What a save followed by the next load gives: the saved history, the
      loaded one then the current chat, trimmed again; when the saved text
      holds user messages, the next load keeps the last of them. */
  lemma SaveThenLoad(loaded: seq<ChatMessage>, currentChat: seq<ChatMessage>, maxChatHistory: int)
    requires maxChatHistory >= 1 && UserMessages(currentChat) != []
    ensures var t := TrimHistory(loaded + currentChat, maxChatHistory);
      t != [] && t[0].isUserMessage && UserMessages(t)[|UserMessages(t)| - 1] == UserMessages(currentChat)[|UserMessages(currentChat)| - 1]
  {
    UserMessagesAppend(loaded, currentChat);
    TrimKeepsLastUserMessages(loaded + currentChat, maxChatHistory);
  }

  lemma {:induction false} UserMessagesAppend(a: seq<ChatMessage>, b: seq<ChatMessage>)
    ensures UserMessages(a + b) == UserMessages(a) + UserMessages(b)
  {
    if a == [] {
      assert a + b == b;
    } else {
      assert (a + b)[0] == a[0];
      assert (a + b)[1..] == a[1..] + b;
      UserMessagesAppend(a[1..], b);
    }
  }
}
