/**
 * The state the CodBot chat window keeps between messages: the context
 * store (a dictionary with an append-only `memory` list and a
 * conversation history capped at ten entries), the question test, and the
 * one-slot `pending_action` machine that waits for a missing location or
 * search query.
 */
module Chatbot {
  import opened Base
  import opened Text

  /** The values the context dictionary holds. */
  datatype Value =
    | Null
    | Str(s: string)
    | Turn(input: string, intent: string)   // a `{"input": ..., "intent": ...}` history entry
    | Items(items: seq<Value>)

  const HistoryLimit: nat := 10

  /** Python's `s[-n:]`: the last `n` elements of `s`, or all of them if there are fewer. */
  function KeepLast<T>(s: seq<T>, n: nat): (r: seq<T>)
    ensures |r| <= n && |r| <= |s|
    ensures |s| <= n ==> r == s
    ensures r == s[|s| - |r|..]
  {
    if |s| <= n then s else s[|s| - n..]
  }

  /**
   * Keeping the last `n` of `s + [v]` keeps `v` as the newest element,
   * holds exactly `n` elements once `s` reaches that many, and keeps the
   * order of the elements it retains.
   */
  lemma KeepLastAppend<T>(s: seq<T>, v: T, n: nat)
    requires n > 0
    ensures var r := KeepLast(s + [v], n);
            && |r| == (if |s| + 1 <= n then |s| + 1 else n)
            && r[|r| - 1] == v
            && (|s| + 1 <= n ==> r == s + [v])
            && (|s| + 1 > n ==> r == s[|s| + 1 - n..] + [v])
  {
    var r := KeepLast(s + [v], n);
    if |s| + 1 > n {
      assert (s + [v])[|s| + 1 - n..] == s[|s| + 1 - n..] + [v];
    }
  }

  /** The dictionary a new `ContextManager` starts with. */
  const InitialContext: map<string, Value> :=
    map["name" := Null, "location" := Null, "memory" := Items([]),
        "last_action" := Null, "conversation_history" := Items([])]

  /** `ContextManager`: the dictionary lives in the `context` field. */
  class ContextManager {
    var context: map<string, Value>

    /** `memory` and `conversation_history` are lists, and the history holds at most ten entries. */
    ghost predicate Valid()
      reads this
    {
      && "memory" in context && context["memory"].Items?
      && "conversation_history" in context && context["conversation_history"].Items?
      && |context["conversation_history"].items| <= HistoryLimit
    }

    constructor ()
      ensures Valid()
      ensures context == InitialContext
      ensures Get("name") == Null && Get("location") == Null && Get("last_action") == Null
      ensures Get("memory") == Items([]) && Get("conversation_history") == Items([])
    {
      context := InitialContext;
    }

    /** `get(key)`: the stored value, or `None` for a key never set. */
    function Get(key: string): (v: Value)
      reads this
      ensures key !in context ==> v == Null
      ensures key in context ==> v == context[key]
    {
      if key in context then context[key] else Null
    }

    /** `update(key, value)`. */
    method Update(key: string, value: Value)
      requires Valid()
      modifies this
      ensures Valid()
      ensures key == "memory" ==>
                Get("memory") == Items(old(Get("memory")).items + [value])
      ensures key == "conversation_history" ==>
                Get(key) == Items(KeepLast(old(Get(key)).items + [value], HistoryLimit))
      ensures key != "memory" && key != "conversation_history" ==> Get(key) == value
      ensures forall k :: k != key ==> Get(k) == old(Get(k))
    {
      if key == "memory" {
        context := context["memory" := Items(context["memory"].items + [value])];
      } else if key == "conversation_history" {
        var grown := context["conversation_history"].items + [value];
        context := context["conversation_history" := Items(KeepLast(grown, HistoryLimit))];
      } else {
        context := context[key := value];
      }
    }
  }

  /** `is_question(text)`: the text, stripped, ends with a question mark. */
  function IsQuestion(text: string): bool
  {
    var t := Strip(text);
    |t| > 0 && t[|t| - 1] == '?'
  }

  /** A question ends with `?` followed by nothing but whitespace. */
  lemma QuestionHasMark(text: string) returns (k: nat)
    requires IsQuestion(text)
    ensures k < |text| && text[k] == '?' && forall m | k < m < |text| :: IsSpace(text[m])
  {
    var i, j := StripBounds(text);
    k := j - 1;
  }

  /** A `?` followed by nothing but whitespace makes a question. */
  lemma MarkMakesQuestion(text: string, k: nat)
    requires k < |text| && text[k] == '?' && forall m | k < m < |text| :: IsSpace(text[m])
    ensures IsQuestion(text)
  {
    var i, j := StripBounds(text);
    assert !IsSpace(text[k]);
  }

  /** What the bot is waiting for: `None`, `"weather"` or `"search"`. */
  datatype Pending = NoAction | Weather | Search

  function WeatherReport(location: string): string
  {
    "The weather in " + location + " is sunny with a temperature of 25\U{00B0}C."
  }

  function SearchReport(query: string): string
  {
    "Search results for '" + query + "': [Grok 3 would fetch real-time data here]"
  }

  const AskLocation: string := "What location should I check?"
  const AskQuery: string := "What would you like to search for?"
  const Cancelled: string := "Action cancelled."

  /**
   * The argument of a weather or search intent: the second regular
   * expression group when there is one, with Python's falsiness (a missing
   * group is `None`, an empty match is `''`).
   */
  function Argument(extras: seq<Option<string>>): (r: Option<string>)
    ensures r.Some? <==> |extras| > 1 && extras[1].Some? && extras[1].value != []
    ensures r.Some? ==> r == extras[1]
  {
    if |extras| > 1 && extras[1].Some? && extras[1].value != [] then extras[1] else None
  }

  /** `handle_pending_action(text)`: the reply, if any; the slot is always emptied. */
  function PendingReply(pending: Pending, text: string): (r: Option<string>)
  {
    var answer := Lower(text);
    if answer == "cancel" || answer == "nevermind" then Some(Cancelled)
    else
      match pending
      case Weather => Some(WeatherReport(text))
      case Search => Some(SearchReport(text))
      case NoAction => None
  }

  /**
   * The pending reply is the cancellation exactly when the text is
   * "cancel" or "nevermind" in any mix of cases; any other text answers
   * what was pending, and gets no reply when nothing was.
   */
  lemma CancelIgnoresCase(p: Pending, text: string)
    ensures PendingReply(p, text) == Some(Cancelled) <==> Lower(text) == "cancel" || Lower(text) == "nevermind"
    ensures Lower(text) != "cancel" && Lower(text) != "nevermind" ==>
              && (p == Weather ==> PendingReply(p, text) == Some(WeatherReport(text)))
              && (p == Search ==> PendingReply(p, text) == Some(SearchReport(text)))
              && (p == NoAction ==> PendingReply(p, text) == None)
  {
    assert WeatherReport(text)[0] == 'T' && SearchReport(text)[0] == 'S' && Cancelled[0] == 'A';
  }

  /** The chat window's `pending_action` slot and the handlers that set and clear it. */
  class ChatWindow {
    var pendingAction: Pending

    constructor ()
      ensures pendingAction == NoAction
    {
      pendingAction := NoAction;
    }

    /** `handle_weather_search(extras)`: a missing location makes the bot wait for one. */
    method HandleWeatherSearch(extras: seq<Option<string>>) returns (reply: string)
      modifies this
      ensures Argument(extras).None? ==> pendingAction == Weather && reply == AskLocation
      ensures Argument(extras).Some? ==>
                pendingAction == old(pendingAction) && reply == WeatherReport(Argument(extras).value)
    {
      var location: Option<string> := None;
      if |extras| > 1 {
        location := extras[1];
      }
      if location.None? || location.value == [] {
        pendingAction := Weather;
        return AskLocation;
      }
      reply := WeatherReport(location.value);
    }

    /** `handle_search(extras)`: a missing query makes the bot wait for one. */
    method HandleSearch(extras: seq<Option<string>>) returns (reply: string)
      modifies this
      ensures Argument(extras).None? ==> pendingAction == Search && reply == AskQuery
      ensures Argument(extras).Some? ==>
                pendingAction == old(pendingAction) && reply == SearchReport(Argument(extras).value)
    {
      var query: Option<string> := None;
      if |extras| > 1 {
        query := extras[1];
      }
      if query.None? || query.value == [] {
        pendingAction := Search;
        return AskQuery;
      }
      reply := SearchReport(query.value);
    }

    /** `handle_pending_action(text)`: answers what was pending and always empties the slot. */
    method HandlePendingAction(text: string) returns (reply: Option<string>)
      modifies this
      ensures pendingAction == NoAction
      ensures reply == PendingReply(old(pendingAction), text)
    {
      var answer := Lower(text);
      if answer == "cancel" || answer == "nevermind" {
        pendingAction := NoAction;
        return Some(Cancelled);
      }
      if pendingAction == Weather {
        reply := Some(WeatherReport(text));
      } else if pendingAction == Search {
        reply := Some(SearchReport(text));
      } else {
        reply := None;
      }
      pendingAction := NoAction;
    }
  }
}
