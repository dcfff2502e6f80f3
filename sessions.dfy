/**
 * The chat service's in-memory session store: a map from session id to that session's
 * history, the `/chat` handler that trims it, records the user's message, asks the
 * agent and records the answer, and the handler that forgets a session.
 */
module Sessions {
  import opened Wrappers
  import opened Text
  import opened WeatherAgent

  /** How many stored turns survive into the next exchange (`history[-10:]`). */
  const HistoryLimit := 10

  /** The request body: a message and an optional session id (absent means "default"). */
  datatype ChatRequest = ChatRequest(message: string, sessionId: Option<string>)

  /**
   * The agent's answer as the handler sees it: a dict that may lack either key. The
   * agent itself is opaque to the handler.
   */
  datatype AgentReply = AgentReply(response: Option<string>, toolsUsed: Option<seq<string>>)

  /** What the handler returns to the browser. */
  datatype ChatReply = ChatReply(response: string, toolsUsed: seq<string>)

  /** `req.session_id or "default"`: an absent or empty id shares the default session. */
  function SessionKey(id: Option<string>): (key: string)
    ensures key != []
    ensures key == "default" <==> id.None? || id.value == [] || id.value == "default"
    ensures id.Some? && id.value != [] ==> key == id.value
  {
    match id
    case Some(s) => if s != [] then s else "default"
    case None => "default"
  }

  /** The history handed to the agent: the kept turns, then the new user message. */
  function SentHistory(previous: seq<Turn>, message: string): (sent: seq<Turn>)
    ensures |sent| == (if |previous| < HistoryLimit then |previous| else HistoryLimit) + 1
    ensures forall i :: 0 <= i < |sent| - 1 ==> sent[i] == previous[|previous| - (|sent| - 1) + i]
    ensures sent[|sent| - 1] == Turn(User, message)
  {
    LastN(previous, HistoryLimit) + [Turn(User, message)]
  }

  /** The history stored after one exchange. */
  function AfterChat(previous: seq<Turn>, message: string, response: string): (h: seq<Turn>)
    ensures |h| == (if |previous| < HistoryLimit then |previous| else HistoryLimit) + 2
    ensures |h| <= HistoryLimit + 2
    ensures forall i :: 0 <= i < |h| - 2 ==> h[i] == previous[|previous| - (|h| - 2) + i]
    ensures h[|h| - 2] == Turn(User, message) && h[|h| - 1] == Turn(Assistant, response)
  {
    SentHistory(previous, message) + [Turn(Assistant, response)]
  }

  /** A stored history: user and assistant turns alternating, user first, in pairs. */
  predicate WellFormed(h: seq<Turn>) {
    && |h| % 2 == 0
    && forall i :: 0 <= i < |h| ==> h[i].role == (if i % 2 == 0 then User else Assistant)
  }

  /** Keeping the last ten turns of a well-formed history keeps it well-formed. */
  lemma KeepLastPreservesWellFormed(h: seq<Turn>)
    requires WellFormed(h)
    ensures WellFormed(LastN(h, HistoryLimit))
  {
    var r := LastN(h, HistoryLimit);
    if |h| > HistoryLimit {
      var d := |h| - HistoryLimit;
      forall i | 0 <= i < |r|
        ensures r[i].role == (if i % 2 == 0 then User else Assistant)
      {
        assert r[i] == h[d + i];
      }
    }
  }

  /** The history sent to the agent alternates, starts and ends with the user. */
  lemma SentHistoryAlternates(previous: seq<Turn>, message: string)
    requires WellFormed(previous)
    ensures var sent := SentHistory(previous, message);
      && |sent| % 2 == 1
      && forall i :: 0 <= i < |sent| ==> sent[i].role == (if i % 2 == 0 then User else Assistant)
  {
    KeepLastPreservesWellFormed(previous);
  }

  /** One exchange keeps a well-formed history well-formed. */
  lemma ChatPreservesWellFormed(previous: seq<Turn>, message: string, response: string)
    requires WellFormed(previous)
    ensures WellFormed(AfterChat(previous, message, response))
  {
    var sent := SentHistory(previous, message);
    SentHistoryAlternates(previous, message);
    assert AfterChat(previous, message, response) == sent + [Turn(Assistant, response)];
  }

  /** Every history in a store is well-formed and at most twelve turns long. */
  predicate StoreValid(conversations: map<string, seq<Turn>>) {
    forall sid :: sid in conversations ==>
      WellFormed(conversations[sid]) && |conversations[sid]| <= HistoryLimit + 2
  }

  /** Storing a well-formed, short history under one key keeps a store valid. */
  lemma StoreUpdateValid(conversations: map<string, seq<Turn>>, sid: string, h: seq<Turn>)
    requires StoreValid(conversations) && WellFormed(h) && |h| <= HistoryLimit + 2
    ensures StoreValid(conversations[sid := h])
  {
  }

  /** One exchange on session `sid` of a valid store leaves it valid. */
  lemma ExchangeKeepsStoreValid(others: map<string, seq<Turn>>, sid: string, message: string, response: string)
    requires StoreValid(others)
    ensures var previous := if sid in others then others[sid] else [];
      StoreValid(others[sid := AfterChat(previous, message, response)])
  {
    var previous := if sid in others then others[sid] else [];
    assert WellFormed(previous);
    ChatPreservesWellFormed(previous, message, response);
    StoreUpdateValid(others, sid, AfterChat(previous, message, response));
  }

  /** The module-level `conversations` dict and the two handlers that change it. */
  class SessionStore {
    var conversations: map<string, seq<Turn>>

    /** Every stored history is well-formed and at most twelve turns long. */
    predicate Valid()
      reads this
    {
      StoreValid(conversations)
    }

    constructor()
      ensures conversations == map[] && Valid()
    {
      conversations := map[];
    }

    /**
     * `POST /chat`. The history list the handler appends to is the one stored in the
     * map, so each append is modelled by writing the longer list back under the key.
     */
    method Chat(req: ChatRequest, agent: (string, seq<Turn>) -> AgentReply) returns (reply: ChatReply)
      modifies this
      ensures var sid := SessionKey(req.sessionId);
        var previous := if sid in old(conversations) then old(conversations)[sid] else [];
        var answer := agent(req.message, SentHistory(previous, req.message));
        && conversations == old(conversations)[sid := AfterChat(previous, req.message, answer.response.GetOr(""))]
        && reply == ChatReply(answer.response.GetOr(""), answer.toolsUsed.GetOr([]))
      ensures forall k :: k != SessionKey(req.sessionId) ==>
        (k in conversations <==> k in old(conversations))
        && (k in conversations ==> conversations[k] == old(conversations)[k])
      ensures old(Valid()) ==> Valid()
    {
      var sessionId := SessionKey(req.sessionId);
      ghost var previous := if sessionId in conversations then conversations[sessionId] else [];
      ghost var others := conversations;
      if sessionId !in conversations {
        conversations := conversations[sessionId := []];
      }
      var history := conversations[sessionId];
      history := LastN(history, HistoryLimit);
      conversations := conversations[sessionId := history];

      history := history + [Turn(User, req.message)];
      conversations := conversations[sessionId := history];

      var result := agent(req.message, history);

      var responseText := result.response.GetOr("");
      history := history + [Turn(Assistant, responseText)];
      conversations := conversations[sessionId := history];

      reply := ChatReply(result.response.GetOr(""), result.toolsUsed.GetOr([]));

      assert history == LastN(previous, HistoryLimit) + [Turn(User, req.message)] + [Turn(Assistant, responseText)];
      assert history == AfterChat(previous, req.message, responseText);
      assert conversations == others[sessionId := history];
      if StoreValid(others) {
        ExchangeKeepsStoreValid(others, sessionId, req.message, responseText);
      }
    }

    /** `DELETE /chat/history/{session_id}`: forget the session, known or not. */
    method ClearHistory(sessionId: string) returns (status: string)
      modifies this
      ensures conversations == old(conversations) - {sessionId}
      ensures sessionId !in old(conversations) ==> conversations == old(conversations)
      ensures status == "cleared"
      ensures old(Valid()) ==> Valid()
    {
      if sessionId in conversations {
        conversations := conversations - {sessionId};
      }
      status := "cleared";
    }
  }
}
