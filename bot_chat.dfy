/**
 * The Wellness Bot chat (frontend/src/components/chat/BotChat.tsx): the
 * rule-based reply classifier `getBotReply` and the component's transcript
 * controller, whose `handleSend` pushes the user's message at once and the
 * bot's reply from a `setTimeout` callback later.
 *
 * Every regular expression of the classifier is a case-insensitive
 * alternation of literal lower-case words, so "`/a|b/i` matches `text`" is
 * modelled as "the ASCII-lowercased `text` contains `a` or `b`".
 */
module BotChat {
  import opened Wrappers
  import opened Text

  /** One regular expression `/a|b|c/i`, given by its literal alternatives, all lower case. */
  type Pattern = seq<string>

  /** The answers of the classifier: one per entry of `RULES`, the crisis guidance, the thanks and the fallback. */
  datatype Reply = Greeting | Anxiety | Sadness | Stress | Help | Crisis | Thanks | Fallback

  /** The text of each answer. */
  function ReplyText(r: Reply): string {
    match r
    case Greeting => "Hi \U{2014} how are you feeling today?"
    case Anxiety => "I'm sorry you're feeling anxious. Would you like breathing exercises or resources?"
    case Sadness => "That sounds heavy. If you're safe, would you like coping tips or contacts for immediate help?"
    case Stress => "Stress can be overwhelming. Want a quick grounding exercise?"
    case Help => "You can email support@yourdomain.com or call local helplines. Would you like numbers?"
    case Crisis =>
      "I'm really sorry you're feeling that way. If you are in immediate danger, please call your local emergency number right now. "
      + "If you'd like, I can show crisis helpline numbers for your country or connect you to resources."
    case Thanks => "You're welcome \U{2014} take care!"
    case Fallback => "Sorry, I don't quite understand. Try rephrasing or ask for resources."
  }

  /** The length of each answer's text; no two answers have the same. */
  function ReplyLength(r: Reply): nat {
    match r
    case Greeting => 31
    case Anxiety => 82
    case Sadness => 93
    case Stress => 60
    case Help => 85
    case Crisis => 220
    case Thanks => 27
    case Fallback => 69
  }

  lemma ReplyLengthInjective(a: Reply, b: Reply)
    ensures ReplyLength(a) == ReplyLength(b) ==> a == b
  {
  }

  lemma LengthGreeting()
    ensures |ReplyText(Greeting)| == 31
  {
  }

  lemma LengthAnxiety()
    ensures |ReplyText(Anxiety)| == 82
  {
  }

  lemma LengthSadness()
    ensures |ReplyText(Sadness)| == 93
  {
  }

  lemma LengthStress()
    ensures |ReplyText(Stress)| == 60
  {
  }

  lemma LengthHelp()
    ensures |ReplyText(Help)| == 85
  {
  }

  lemma LengthCrisis()
    ensures |ReplyText(Crisis)| == 220
  {
  }

  lemma LengthThanks()
    ensures |ReplyText(Thanks)| == 27
  {
  }

  lemma LengthFallback()
    ensures |ReplyText(Fallback)| == 69
  {
  }

  lemma ReplyTextLength(r: Reply)
    ensures |ReplyText(r)| == ReplyLength(r)
  {
    match r
    case Greeting => LengthGreeting();
    case Anxiety => LengthAnxiety();
    case Sadness => LengthSadness();
    case Stress => LengthStress();
    case Help => LengthHelp();
    case Crisis => LengthCrisis();
    case Thanks => LengthThanks();
    case Fallback => LengthFallback();
  }

  /** Different answers have different texts, so the returned string tells which answer was chosen. */
  lemma ReplyTextInjective(a: Reply, b: Reply)
    ensures ReplyText(a) == ReplyText(b) <==> a == b
  {
    if ReplyText(a) == ReplyText(b) {
      ReplyTextLength(a);
      ReplyTextLength(b);
      ReplyLengthInjective(a, b);
    }
  }

  /** An entry of `RULES`: the answer is given when any of the patterns matches. */
  datatype Rule = Rule(patterns: seq<Pattern>, reply: Reply)

  /** Self-harm and suicide vocabulary, checked before every rule. */
  const CrisisPattern: Pattern := ["suicid", "kill myself", "i want to die", "self-harm"]

  /** Closing courtesies, checked after every rule. */
  const ThanksPattern: Pattern := ["bye", "thanks", "thank"]

  /** `RULES`, in priority order. */
  const Rules: seq<Rule> := [
    Rule([["hi", "hello", "hey"]], Greeting),
    Rule([["anxious", "anxiety"]], Anxiety),
    Rule([["sad", "depress", "hopeless"]], Sadness),
    Rule([["stress", "stressed"]], Stress),
    Rule([["help", "support", "contact"]], Help)
  ]

  /** `pattern.test(text)`: some alternative occurs in `text`, ignoring ASCII case. */
  predicate Test(pattern: Pattern, text: string) {
    exists w :: w in pattern && Contains(Lower(text), w)
  }

  /** `rule.patterns.some((p) => p.test(text))`. */
  predicate Fires(rule: Rule, text: string) {
    exists p :: p in rule.patterns && Test(p, text)
  }

  /** The crisis check as written: the pattern is tested on `text.toLowerCase()`. */
  predicate IsCrisis(text: string) {
    Test(CrisisPattern, Lower(text))
  }

  /** The index of the earliest rule of `rules` that fires on `text`, if any. */
  function FirstMatch(rules: seq<Rule>, text: string): (r: Option<nat>)
    ensures r.Some? ==> r.value < |rules| && Fires(rules[r.value], text)
    ensures forall j :: 0 <= j < |rules| && (r.None? || j < r.value) ==> !Fires(rules[j], text)
    decreases |rules|
  {
    if rules == [] then None
    else if Fires(rules[0], text) then Some(0)
    else
      match FirstMatch(rules[1..], text)
      case None => None
      case Some(k) => Some(k + 1)
  }

  /** Which answer `getBotReply(text)` gives. */
  function Classify(text: string): Reply {
    if IsCrisis(text) then Crisis
    else
      match FirstMatch(Rules, text)
      case Some(k) => Rules[k].reply
      case None => if Test(ThanksPattern, text) then Thanks else Fallback
  }

  /** The string `getBotReply(text)` returns. */
  function BotReply(text: string): string {
    ReplyText(Classify(text))
  }

  /**
   * The decision `getBotReply` makes: the crisis check, then the first
   * matching rule of `RULES`, then thanks, then the fallback.
   */
  method ChooseReply(text: string) returns (answer: Reply)
    ensures answer == Classify(text)
  {
    var lower := Lower(text);
    if Test(CrisisPattern, lower) {
      return Crisis;
    }
    for i := 0 to |Rules|
      invariant forall j :: 0 <= j < i ==> !Fires(Rules[j], text)
    {
      if Fires(Rules[i], text) {
        FirstMatchIs(Rules, text, i);
        return Rules[i].reply;
      }
    }
    NoFirstMatch(Rules, text);
    if Test(ThanksPattern, text) {
      return Thanks;
    }
    return Fallback;
  }

  /** `getBotReply`: the text of the chosen reply. */
  method GetBotReply(text: string) returns (reply: string)
    ensures reply == BotReply(text)
  {
    var answer := ChooseReply(text);
    reply := ReplyText(answer);
  }

  // ---------------------------------------------------------------------
  // Properties of the classifier
  // ---------------------------------------------------------------------

  /** Testing the lower-cased text is the same as testing the text: the test already ignores case. */
  lemma TestIgnoresCase(pattern: Pattern, text: string)
    ensures Test(pattern, Lower(text)) == Test(pattern, text)
  {
    LowerOfLowerCase(Lower(text));
  }

  /** Crisis vocabulary, in any case, yields the crisis reply, whatever rule words the text also holds. */
  lemma CrisisPrecedence(text: string, w: string)
    requires w in CrisisPattern && Contains(Lower(text), w)
    ensures Classify(text) == Crisis
  {
    TestIgnoresCase(CrisisPattern, text);
  }

  /** The crisis reply is given exactly when the text holds crisis vocabulary. */
  lemma CrisisIff(text: string)
    ensures Classify(text) == Crisis <==> Test(CrisisPattern, text)
  {
    TestIgnoresCase(CrisisPattern, text);
  }

  /** The earliest firing rule is found, and only it. */
  lemma FirstMatchIs(rules: seq<Rule>, text: string, k: nat)
    requires k < |rules|
    ensures FirstMatch(rules, text) == Some(k) <==> Fires(rules[k], text) && forall j :: 0 <= j < k ==> !Fires(rules[j], text)
  {
    if Fires(rules[k], text) && forall j :: 0 <= j < k ==> !Fires(rules[j], text) {
      var m := FirstMatch(rules, text);
      assert m.Some? && m.value <= k;
    }
  }

  /** The entries of `RULES` give five different answers, none of them the crisis, thanks or fallback answer. */
  lemma RuleRepliesDistinct(i: nat, j: nat)
    requires i < |Rules| && j < |Rules|
    ensures Rules[i].reply == Rules[j].reply <==> i == j
    ensures Rules[i].reply != Crisis && Rules[i].reply != Thanks && Rules[i].reply != Fallback
  {
  }

  /**
   * Without crisis vocabulary, rule `k`'s answer is given exactly when rule
   * `k` fires and no earlier rule does: the first match wins.
   */
  lemma FirstMatchWins(text: string, k: nat)
    requires k < |Rules|
    ensures Classify(text) == Rules[k].reply
            <==> !Test(CrisisPattern, text) && Fires(Rules[k], text) && forall j :: 0 <= j < k ==> !Fires(Rules[j], text)
  {
    TestIgnoresCase(CrisisPattern, text);
    FirstMatchIs(Rules, text, k);
    match FirstMatch(Rules, text)
    case Some(m) => RuleRepliesDistinct(m, k);
    case None => RuleRepliesDistinct(k, k);
  }

  /** No rule is found exactly when no rule fires. */
  lemma NoFirstMatch(rules: seq<Rule>, text: string)
    ensures FirstMatch(rules, text).None? <==> forall j :: 0 <= j < |rules| ==> !Fires(rules[j], text)
  {
  }

  /** The thanks answer is given exactly when no crisis word and no rule match, and a thanks word does. */
  lemma ThanksIff(text: string)
    ensures Classify(text) == Thanks
            <==> !Test(CrisisPattern, text) && (forall j :: 0 <= j < |Rules| ==> !Fires(Rules[j], text)) && Test(ThanksPattern, text)
  {
    TestIgnoresCase(CrisisPattern, text);
    NoFirstMatch(Rules, text);
    if FirstMatch(Rules, text).Some? {
      RuleRepliesDistinct(FirstMatch(Rules, text).value, 0);
    }
  }

  /** The fallback is given exactly when nothing matches. */
  lemma FallbackIff(text: string)
    ensures Classify(text) == Fallback
            <==> !Test(CrisisPattern, text) && (forall j :: 0 <= j < |Rules| ==> !Fires(Rules[j], text)) && !Test(ThanksPattern, text)
  {
    TestIgnoresCase(CrisisPattern, text);
    NoFirstMatch(Rules, text);
    if FirstMatch(Rules, text).Some? {
      RuleRepliesDistinct(FirstMatch(Rules, text).value, 0);
    }
  }

  /** `getBotReply` returns the text of answer `a` exactly when `a` is the answer chosen. */
  lemma BotReplyIs(text: string, a: Reply)
    ensures BotReply(text) == ReplyText(a) <==> Classify(text) == a
  {
    if BotReply(text) == ReplyText(a) {
      ReplyTextInjective(Classify(text), a);
    }
  }

  /** The crisis text is returned whenever the text holds crisis vocabulary. */
  lemma CrisisTextIfCrisis(text: string)
    ensures Test(CrisisPattern, text) ==> BotReply(text) == ReplyText(Crisis)
  {
    CrisisIff(text);
  }

  /** The crisis text is returned only when the text holds crisis vocabulary. */
  lemma CrisisTextOnlyIfCrisis(text: string)
    ensures BotReply(text) == ReplyText(Crisis) ==> Test(CrisisPattern, text)
  {
    BotReplyIs(text, Crisis);
    CrisisIff(text);
  }

  /** Rule k's reply text is returned exactly when there is no crisis word, rule k fires, and no earlier rule fires. */
  lemma RuleTextIff(text: string, k: nat)
    requires k < |Rules|
    ensures BotReply(text) == ReplyText(Rules[k].reply)
            <==> !Test(CrisisPattern, text) && Fires(Rules[k], text) && forall j :: 0 <= j < k ==> !Fires(Rules[j], text)
  {
    BotReplyIs(text, Rules[k].reply);
    FirstMatchWins(text, k);
  }

  /** "You're welcome \U{2014} take care!" is returned exactly when no crisis word and no rule match, and a thanks word does. */
  lemma ThanksTextIff(text: string)
    ensures BotReply(text) == ReplyText(Thanks)
            <==> !Test(CrisisPattern, text) && (forall j :: 0 <= j < |Rules| ==> !Fires(Rules[j], text)) && Test(ThanksPattern, text)
  {
    BotReplyIs(text, Thanks);
    ThanksIff(text);
  }

  /** The fallback text is returned exactly when nothing matches. */
  lemma FallbackTextIff(text: string)
    ensures BotReply(text) == ReplyText(Fallback)
            <==> !Test(CrisisPattern, text) && (forall j :: 0 <= j < |Rules| ==> !Fires(Rules[j], text)) && !Test(ThanksPattern, text)
  {
    BotReplyIs(text, Fallback);
    FallbackIff(text);
  }

  lemma {:induction false} FirstMatchIgnoresCase(rules: seq<Rule>, a: string, b: string)
    requires Lower(a) == Lower(b)
    ensures FirstMatch(rules, a) == FirstMatch(rules, b)
    decreases |rules|
  {
    if rules != [] {
      assert Fires(rules[0], a) == Fires(rules[0], b);
      FirstMatchIgnoresCase(rules[1..], a, b);
    }
  }

  /** Texts that agree up to ASCII case get the same answer. */
  lemma SameLowerSameReply(a: string, b: string)
    requires Lower(a) == Lower(b)
    ensures Classify(a) == Classify(b)
  {
    FirstMatchIgnoresCase(Rules, a, b);
  }

  /** The answer depends only on the lower-cased text. */
  lemma ReplyOfLowerCase(text: string)
    ensures Classify(Lower(text)) == Classify(text)
  {
    LowerOfLowerCase(Lower(text));
    SameLowerSameReply(Lower(text), text);
  }

  lemma LowerOfGreetingExample()
    ensures Lower("hi, I'm stressed") == "hi, i'm stressed"
  {
    var text := "hi, I'm stressed";
    assert forall i :: 0 <= i < |text| ==> Lower(text)[i] == LowerChar(text[i]);
    assert LowerChar('I') == 'i';
  }

  /** A text lacking the letters 'u', 'k', 'w' and the hyphen holds no crisis word. */
  lemma NoCrisisWithout(text: string)
    requires 'u' !in Lower(text) && 'k' !in Lower(text) && 'w' !in Lower(text) && '-' !in Lower(text)
    ensures !Test(CrisisPattern, text)
  {
    MissingCharExcludes(Lower(text), "suicid", 1);
    MissingCharExcludes(Lower(text), "kill myself", 0);
    MissingCharExcludes(Lower(text), "i want to die", 2);
    MissingCharExcludes(Lower(text), "self-harm", 4);
    forall w | w in CrisisPattern
      ensures !Contains(Lower(text), w)
    {
    }
  }

  /** A rule fires when one of its words occurs, in any case, somewhere in the text. */
  lemma FiresOnOccurrence(text: string, k: nat, w: string, i: int)
    requires k < |Rules| && w in Rules[k].patterns[0] && OccursAt(Lower(text), w, i)
    ensures Fires(Rules[k], text)
  {
    assert Test(Rules[k].patterns[0], text);
  }

  lemma GreetingExampleNoCrisis(text: string)
    requires text == "hi, I'm stressed"
    ensures !Test(CrisisPattern, text)
  {
    LowerOfGreetingExample();
    NoCrisisWithout(text);
  }

  lemma GreetingExampleFiresGreeting(text: string)
    requires text == "hi, I'm stressed"
    ensures Fires(Rules[0], text)
  {
    LowerOfGreetingExample();
    FiresOnOccurrence(text, 0, "hi", 0);
  }

  lemma GreetingExampleFiresStress(text: string)
    requires text == "hi, I'm stressed"
    ensures Fires(Rules[3], text)
  {
    LowerOfGreetingExample();
    FiresOnOccurrence(text, 3, "stress", 8);
  }

  /** "hi, I'm stressed" matches the greeting and the stress rule; the greeting, listed first, wins. */
  lemma GreetingBeforeStress(text: string)
    requires text == "hi, I'm stressed"
    ensures Fires(Rules[3], text)
    ensures Classify(text) == Greeting
  {
    GreetingExampleNoCrisis(text);
    GreetingExampleFiresGreeting(text);
    GreetingExampleFiresStress(text);
    FirstMatchWins(text, 0);
  }

  /** "I want to die" gets the crisis reply. */
  lemma WantToDieIsCrisis()
    ensures Classify("I want to die") == Crisis
  {
    var lower := "i want to die";
    assert Lower("I want to die") == lower;
    assert OccursAt(lower, "i want to die", 0);
    CrisisPrecedence("I want to die", "i want to die");
  }

  // ---------------------------------------------------------------------
  // The transcript controller
  // ---------------------------------------------------------------------

  const BotUsername := "Wellness Bot"
  const UserUsername := "You"

  datatype Msg = Msg(id: string, username: string, message: string)

  /** A `setTimeout` callback that is scheduled and has not fired: the text it replies to and its delay in ms. */
  datatype Timer = Timer(text: string, delay: nat)

  const WelcomeMessage := Msg("bot-0", BotUsername, "Hello \U{2014} I'm here to listen. Type anything to get started.")

  /** The number of messages in `log` written by `name`. */
  function CountBy(log: seq<Msg>, name: string): nat
    decreases |log|
  {
    if log == [] then 0
    else CountBy(log[..|log| - 1], name) + (if log[|log| - 1].username == name then 1 else 0)
  }

  lemma CountByAppend(log: seq<Msg>, m: Msg, name: string)
    ensures CountBy(log + [m], name) == CountBy(log, name) + (if m.username == name then 1 else 0)
  {
    assert (log + [m])[..|log|] == log;
  }

  /** Every scheduled reply answers a trimmed, non-empty text and waits between 500 and 999 ms. */
  ghost predicate Scheduled(timers: seq<Timer>) {
    forall i :: 0 <= i < |timers| ==> timers[i].text != "" && Trimmed(timers[i].text, JsSpaces) && 500 <= timers[i].delay < 1000
  }

  /** Dropping one timer keeps the others well scheduled. */
  lemma ScheduledRemove(timers: seq<Timer>, k: nat)
    requires Scheduled(timers) && k < |timers|
    ensures Scheduled(timers[..k] + timers[k + 1..])
  {
    var rest := timers[..k] + timers[k + 1..];
    forall i | 0 <= i < |rest|
      ensures rest[i] == timers[if i < k then i else i + 1]
    {
    }
  }

  class Chat {
    var messages: seq<Msg>
    var input: string
    var timers: seq<Timer>

    /**
     * Every user message has exactly one bot reply, delivered or still
     * scheduled, besides the welcome message; every scheduled reply answers
     * a trimmed, non-empty text and waits between 500 and 999 ms.
     */
    ghost predicate Valid()
      reads this
    {
      && CountBy(messages, UserUsername) + 1 == CountBy(messages, BotUsername) + |timers|
      && Scheduled(timers)
    }

    constructor ()
      ensures Valid()
      ensures messages == [WelcomeMessage] && input == "" && timers == []
    {
      messages := [WelcomeMessage];
      input := "";
      timers := [];
      assert [WelcomeMessage] == [] + [WelcomeMessage];
      CountByAppend([], WelcomeMessage, UserUsername);
      CountByAppend([], WelcomeMessage, BotUsername);
    }

    /** The input field's `onChange`. */
    method SetInput(text: string)
      modifies this
      ensures input == text && messages == old(messages) && timers == old(timers)
    {
      input := text;
    }

    /** `pushMessage`: appends at the end. */
    method PushMessage(m: Msg)
      modifies this
      ensures messages == old(messages) + [m]
      ensures input == old(input) && timers == old(timers)
    {
      messages := messages + [m];
    }

    /**
     * `handleSend` at clock reading `now`, with `jitter` the value of
     * `Math.floor(Math.random() * 500)`: a trimmed-empty input changes
     * nothing; otherwise the trimmed input is pushed as a "You" message, the
     * draft is cleared and a reply to the trimmed text is scheduled.
     */
    method HandleSend(now: nat, jitter: nat)
      requires Valid() && jitter < 500
      modifies this
      ensures Valid()
      ensures JsTrim(old(input)) == "" ==> messages == old(messages) && input == old(input) && timers == old(timers)
      ensures JsTrim(old(input)) != "" ==>
        && messages == old(messages) + [Msg("user-" + DecimalString(now), UserUsername, JsTrim(old(input)))]
        && input == ""
        && timers == old(timers) + [Timer(JsTrim(old(input)), 500 + jitter)]
    {
      var text := JsTrim(input);
      if text == "" {
        return;
      }
      var userMsg := Msg("user-" + DecimalString(now), UserUsername, text);
      CountByAppend(messages, userMsg, UserUsername);
      CountByAppend(messages, userMsg, BotUsername);
      PushMessage(userMsg);
      input := "";
      var _ := TrimBySlice(old(input), JsSpaces);
      timers := timers + [Timer(text, 500 + jitter)];
    }

    /**
     * The scheduled callback `k` fires at clock reading `now`: the bot's
     * reply to the text it was scheduled with is pushed, and the timer is gone.
     */
    method FireTimer(k: nat, now: nat)
      requires Valid() && k < |timers|
      modifies this
      ensures Valid()
      ensures messages == old(messages) + [Msg("bot-" + DecimalString(now), BotUsername, BotReply(old(timers)[k].text))]
      ensures timers == old(timers)[..k] + old(timers)[k + 1..]
      ensures input == old(input)
    {
      var t := timers[k];
      var replyText := GetBotReply(t.text);
      var botMsg := Msg("bot-" + DecimalString(now), BotUsername, replyText);
      CountByAppend(messages, botMsg, UserUsername);
      CountByAppend(messages, botMsg, BotUsername);
      PushMessage(botMsg);
      ScheduledRemove(timers, k);
      timers := timers[..k] + timers[k + 1..];
    }
  }
}
