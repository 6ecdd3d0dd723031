/**
 * The Maya chat (frontend/src/components/chat/Mayachat.tsx): a transcript
 * controller whose `handleSend` pushes the user's message and a "thinking"
 * placeholder, posts the trimmed text to the reply server, and then removes
 * the placeholder by id and pushes either the reply or an error message.
 *
 * The network is not modelled: what the awaited `fetch` and the reading of
 * the response body end in is an `Outcome` value given to the controller.
 * The await splits `handleSend` in two: `Submit` runs up to the request and
 * `Settle` runs once the outcome is known; `HandleSend` runs both.
 */
module MayaChat {
  import opened Wrappers
  import opened Text

  const BotUsername := "Maya"
  const UserUsername := "You"
  const ThinkingText := "Maya is thinking..."
  const NoReplyText := "Sorry, I couldn't generate a response."

  /** The id prefix of the "thinking" placeholder, and of nothing else. */
  const LoadingPrefix := "maya-loading-"

  /** The generation settings the component sends with every request. */
  const MaxNewTokens := 256
  const Temperature := 0.8

  datatype Msg = Msg(id: string, username: string, message: string, error: bool, loading: bool)

  /** The JSON body posted to /api/maya. */
  datatype Request = Request(input: string, maxNewTokens: nat, temperature: real)

  /** How one request ends, as the component sees it. */
  datatype Outcome =
      /** `resp.ok`, and `data.reply` of the parsed body when it is a string. */
    | Ok(reply: Option<string>)
      /** `!resp.ok`: the status, `resp.statusText` and the body read by `resp.text()`. */
    | HttpError(status: nat, statusText: string, body: string)
      /**
       * An exception with this message: from `fetch` itself when `responded`
       * is false, or from `resp.text()` / `resp.json()` once the response
       * has arrived when it is true.
       */
    | Thrown(message: string, responded: bool)

  const Welcome := Msg("maya-0", BotUsername, "Hello \U{2014} I'm Maya. I'm here to listen.", false, false)

  predicate IsLoadingId(id: string) {
    LoadingPrefix <= id
  }

  function UserMessage(stamp: nat, text: string): (m: Msg)
    ensures !IsLoadingId(m.id) && !m.loading
  {
    var id := "user-" + DecimalString(stamp);
    assert id[0] == 'u';
    Msg(id, UserUsername, text, false, false)
  }

  function Placeholder(stamp: nat): (m: Msg)
    ensures IsLoadingId(m.id) && m.loading
  {
    Msg(LoadingPrefix + DecimalString(stamp), BotUsername, ThinkingText, false, true)
  }

  /** The request body `handleSend` posts for the trimmed text. */
  function RequestFor(text: string): Request {
    Request(text, MaxNewTokens, Temperature)
  }

  /**
   * The message that replaces the placeholder once `outcome` is known, made
   * at clock reading `stamp`: the reply when the server gave a non-empty one,
   * the apology when it gave none, and an error message, flagged `error`,
   * for an HTTP error or an exception.
   */
  function ReplyMessage(outcome: Outcome, stamp: nat): (m: Msg)
    ensures m.username == BotUsername && !m.loading && !IsLoadingId(m.id)
    ensures m.error <==> !outcome.Ok?
    ensures outcome.Ok? ==> m.message == (if outcome.reply.Some? && outcome.reply.value != "" then outcome.reply.value else NoReplyText)
    ensures outcome.HttpError? ==>
      m.message == "Error from bot: " + DecimalString(outcome.status) + " " + outcome.statusText + " "
                   + (if outcome.body != "" then "- " + outcome.body else "")
    ensures outcome.Thrown? ==> m.message == "Network error: " + outcome.message
  {
    match outcome
    case Ok(reply) =>
      var id := "maya-" + DecimalString(stamp);
      assert id[5] == DecimalString(stamp)[0];
      var text := if reply.Some? && reply.value != "" then reply.value else NoReplyText;
      Msg(id, BotUsername, text, false, false)
    case HttpError(status, statusText, body) =>
      var id := "maya-err-" + DecimalString(stamp);
      assert id[5] == 'e';
      var detail := if body != "" then "- " + body else "";
      Msg(id, BotUsername, "Error from bot: " + DecimalString(status) + " " + statusText + " " + detail, true, false)
    case Thrown(message, _) =>
      var id := "maya-neterr-" + DecimalString(stamp);
      assert id[5] == 'n';
      Msg(id, BotUsername, "Network error: " + message, true, false)
  }

  /** Splicing the reason phrase and a detail after `lead` keeps all three visible. */
  lemma SplicedDiagnostics(lead: string, statusText: string, detail: string)
    ensures lead <= lead + " " + statusText + " " + detail
    ensures Contains(lead + " " + statusText + " " + detail, statusText)
    ensures Contains(lead + " " + statusText + " " + detail, detail)
  {
    var before := lead + " " + statusText;
    var text := before + " " + detail;
    assert text == lead + (" " + statusText + " " + detail);
    ContainsInfix(lead + " ", statusText, " " + detail);
    assert text == before + (" " + detail);
    ContainsInfix(before + " ", detail, "");
    assert text + "" == text;
  }

  /**
   * The error message for a non-ok response shows the status, the reason
   * phrase and, when the server sent one, its body text, each verbatim.
   */
  lemma ErrorShowsDiagnostics(status: nat, statusText: string, body: string, stamp: nat)
    ensures var m := ReplyMessage(HttpError(status, statusText, body), stamp);
      && "Error from bot: " + DecimalString(status) <= m.message
      && Contains(m.message, statusText)
      && (body != "" ==> Contains(m.message, "- " + body))
  {
    SplicedDiagnostics("Error from bot: " + DecimalString(status), statusText, if body != "" then "- " + body else "");
  }

  // ---------------------------------------------------------------------
  // removeMessageById
  // ---------------------------------------------------------------------

  /** `log.filter((m) => m.id !== id)`. */
  function RemoveById(log: seq<Msg>, id: string): seq<Msg>
    decreases |log|
  {
    if log == [] then []
    else (if log[0].id == id then [] else [log[0]]) + RemoveById(log[1..], id)
  }

  /** The filter keeps exactly the entries whose id differs, and never lengthens the log. */
  lemma {:induction false} RemoveByIdKeeps(log: seq<Msg>, id: string)
    ensures |RemoveById(log, id)| <= |log|
    ensures forall m :: m in RemoveById(log, id) <==> m in log && m.id != id
    decreases |log|
  {
    if log != [] {
      RemoveByIdKeeps(log[1..], id);
      assert log == [log[0]] + log[1..];
    }
  }

  /** Removing from a concatenation removes from each part and keeps their order. */
  lemma {:induction false} RemoveByIdAppend(a: seq<Msg>, b: seq<Msg>, id: string)
    ensures RemoveById(a + b, id) == RemoveById(a, id) + RemoveById(b, id)
    decreases |a|
  {
    if a == [] {
      assert a + b == b;
    } else {
      assert (a + b)[0] == a[0];
      assert (a + b)[1..] == a[1..] + b;
      RemoveByIdAppend(a[1..], b, id);
    }
  }

  /** Removing an id that no entry carries changes nothing. */
  lemma {:induction false} RemoveByIdAbsent(log: seq<Msg>, id: string)
    requires forall i :: 0 <= i < |log| ==> log[i].id != id
    ensures RemoveById(log, id) == log
    decreases |log|
  {
    if log != [] {
      RemoveByIdAbsent(log[1..], id);
    }
  }

  /** Removing twice is removing once, so the second removal on the error path is harmless. */
  lemma RemoveByIdIdempotent(log: seq<Msg>, id: string)
    ensures RemoveById(RemoveById(log, id), id) == RemoveById(log, id)
  {
    var r := RemoveById(log, id);
    RemoveByIdKeeps(log, id);
    forall i | 0 <= i < |r|
      ensures r[i].id != id
    {
      assert r[i] in r;
    }
    RemoveByIdAbsent(r, id);
  }

  /** Removing the id that only the last entry carries drops that entry, once or twice over. */
  lemma RemoveLast(log: seq<Msg>, id: string)
    requires |log| > 0 && log[|log| - 1].id == id
    requires forall i :: 0 <= i < |log| - 1 ==> log[i].id != id
    ensures RemoveById(log, id) == log[..|log| - 1]
    ensures RemoveById(log[..|log| - 1], id) == log[..|log| - 1]
  {
    var earlier := log[..|log| - 1];
    assert log == earlier + [log[|log| - 1]];
    RemoveByIdAppend(earlier, [log[|log| - 1]], id);
    RemoveByIdAbsent(earlier, id);
  }

  // ---------------------------------------------------------------------
  // The transcript controller
  // ---------------------------------------------------------------------

  /** A log with no placeholder: no entry is loading and none carries a loading id. */
  ghost predicate Settled(log: seq<Msg>) {
    forall i :: 0 <= i < |log| ==> !log[i].loading && !IsLoadingId(log[i].id)
  }

  /** Appending a message that is not a placeholder keeps a log settled. */
  lemma SettledAppend(log: seq<Msg>, m: Msg)
    requires Settled(log) && !m.loading && !IsLoadingId(m.id)
    ensures Settled(log + [m])
  {
  }

  class Chat {
    var messages: seq<Msg>
    var input: string
    /** The placeholder id of the request that is awaiting its outcome, if any. */
    var inFlight: Option<string>

    /**
     * With no request in flight the log holds no placeholder; with one in
     * flight its placeholder is the last message and the only one.
     */
    ghost predicate Valid()
      reads this
    {
      match inFlight
      case None => Settled(messages)
      case Some(id) =>
        && IsLoadingId(id) && |messages| > 0
        && messages[|messages| - 1].id == id && messages[|messages| - 1].loading
        && Settled(messages[..|messages| - 1])
    }

    constructor ()
      ensures Valid()
      ensures messages == [Welcome] && input == "" && inFlight == None
    {
      messages := [Welcome];
      input := "";
      inFlight := None;
    }

    /** The input field's `onChange`. */
    method SetInput(text: string)
      modifies this
      ensures input == text && messages == old(messages) && inFlight == old(inFlight)
    {
      input := text;
    }

    /** `pushMessage`: appends at the end. */
    method PushMessage(m: Msg)
      modifies this
      ensures messages == old(messages) + [m]
      ensures input == old(input) && inFlight == old(inFlight)
    {
      messages := messages + [m];
    }

    /** `removeMessageById`. */
    method RemoveMessageById(id: string)
      modifies this
      ensures messages == RemoveById(old(messages), id)
      ensures input == old(input) && inFlight == old(inFlight)
    {
      messages := RemoveById(messages, id);
    }

    /**
     * `handleSend` up to the `fetch`, at clock readings `userStamp` and
     * `loadingStamp`: a trimmed-empty input changes nothing and sends
     * nothing; otherwise the user's message and then the placeholder are
     * pushed, the draft is cleared and the request carries the trimmed text.
     */
    method Submit(userStamp: nat, loadingStamp: nat) returns (request: Option<Request>)
      requires Valid() && inFlight.None?
      modifies this
      ensures Valid()
      ensures request.None? <==> JsTrim(old(input)) == ""
      ensures request.None? ==> messages == old(messages) && input == old(input) && inFlight == None
      ensures request.Some? ==>
        && request.value == RequestFor(JsTrim(old(input)))
        && messages == old(messages) + [UserMessage(userStamp, JsTrim(old(input))), Placeholder(loadingStamp)]
        && input == ""
        && inFlight == Some(Placeholder(loadingStamp).id)
    {
      var text := JsTrim(input);
      if text == "" {
        return None;
      }
      ghost var before := messages;
      var userMsg := UserMessage(userStamp, text);
      PushMessage(userMsg);
      input := "";
      SettledAppend(before, userMsg);
      var placeholder := Placeholder(loadingStamp);
      PushMessage(placeholder);
      inFlight := Some(placeholder.id);
      assert messages[..|messages| - 1] == before + [userMsg];
      request := Some(RequestFor(text));
    }

    /**
     * `handleSend` after the `fetch`, once `outcome` is known, at clock
     * reading `stamp`: on every path the placeholder is removed (twice when
     * the response body could not be read) and exactly one message is
     * pushed in its place; the rest of the log and the draft are untouched.
     */
    method Settle(outcome: Outcome, stamp: nat)
      requires Valid() && inFlight.Some?
      modifies this
      ensures Valid() && inFlight == None
      ensures messages == old(messages)[..|old(messages)| - 1] + [ReplyMessage(outcome, stamp)]
      ensures input == old(input)
    {
      var loadingId := inFlight.value;
      ghost var earlier := messages[..|messages| - 1];
      assert forall i :: 0 <= i < |messages| - 1 ==> messages[i].id != loadingId by {
        assert forall i :: 0 <= i < |messages| - 1 ==> messages[i] == earlier[i];
      }
      RemoveLast(messages, loadingId);
      if !(outcome.Thrown? && !outcome.responded) {
        // the response arrived
        RemoveMessageById(loadingId);
      }
      if outcome.Thrown? {
        // the catch block
        RemoveMessageById(loadingId);
      }
      assert messages == earlier;
      var reply := ReplyMessage(outcome, stamp);
      PushMessage(reply);
      inFlight := None;
      SettledAppend(earlier, reply);
    }

    /**
     * One whole `handleSend`: a non-empty submission ends with the user's
     * message followed by exactly one reply or error message appended to the
     * log, and no placeholder left anywhere.
     */
    method HandleSend(outcome: Outcome, userStamp: nat, loadingStamp: nat, replyStamp: nat) returns (request: Option<Request>)
      requires Valid() && inFlight.None?
      modifies this
      ensures Valid() && inFlight == None && Settled(messages)
      ensures request.None? <==> JsTrim(old(input)) == ""
      ensures request.None? ==> messages == old(messages) && input == old(input)
      ensures request.Some? ==>
        && request.value == RequestFor(JsTrim(old(input)))
        && messages == old(messages) + [UserMessage(userStamp, JsTrim(old(input))), ReplyMessage(outcome, replyStamp)]
        && input == ""
    {
      request := Submit(userStamp, loadingStamp);
      if request.Some? {
        ghost var pending := messages;
        Settle(outcome, replyStamp);
        assert pending[..|pending| - 1] == old(messages) + [UserMessage(userStamp, JsTrim(old(input)))];
      }
    }
  }
}
