/**
 * The reply server's `/api/maya` handler (backend/server/app.py): it refuses
 * an empty input, frames the prompt, and post-processes the decoded model
 * output by removing the echoed prompt and cutting the text at the next
 * "\nUser:" turn.
 *
 * The tokenizer and the model are not modelled: tokenizing, generating and
 * decoding are a function `generate` given to the handler, from the prompt
 * and the sampling settings to a `Generation`, either the decoded text or the
 * message of the exception raised on the way.
 */
module MayaServer {
  import opened Wrappers
  import opened Text
  import MayaChat

  /** The defaults of `RequestBody` for the fields a client leaves out. */
  const DefaultMaxNewTokens := 256
  const DefaultTemperature := 0.8
  /** The nucleus-sampling bound every generation uses. */
  const TopP := 0.9

  /** The parsed JSON body; `None` is a field the client left out. */
  datatype RequestBody = RequestBody(input: string, maxNewTokens: Option<int>, temperature: Option<real>)

  /** The sampling settings one generation runs with. */
  datatype Settings = Settings(maxNewTokens: int, temperature: real, topP: real, doSample: bool)

  /** How tokenizing, generating and decoding end. */
  datatype Generation = Decoded(text: string) | GenerationFailed(error: string)

  /** What the handler answers: `{"reply": ...}` or an `HTTPException`. */
  datatype Response = Reply(reply: string) | HttpError(status: nat, detail: string)

  const InputRequired := "`input` string required"
  const UserTurn := "\nUser:"

  /**
   * The settings `model.generate` is called with: the client's values where
   * it gave them, the defaults where it did not, and always sampling with
   * the fixed nucleus bound.
   */
  function SettingsFor(body: RequestBody): Settings {
    var maxNewTokens := match body.maxNewTokens case Some(n) => n case None => DefaultMaxNewTokens;
    var temperature := match body.temperature case Some(t) => t case None => DefaultTemperature;
    Settings(maxNewTokens, temperature, TopP, true)
  }

  /** The body the chat component posts, as the server parses it. */
  function FromClient(request: MayaChat.Request): RequestBody {
    RequestBody(request.input, Some(request.maxNewTokens), Some(request.temperature))
  }

  /** A body that leaves both fields out is generated with 256 new tokens, temperature 0.8 and top-p 0.9. */
  lemma OmittedFieldsDefault(input: string)
    ensures SettingsFor(RequestBody(input, None, None)) == Settings(256, 0.8, 0.9, true)
  {
  }

  /** Fields the client gives are used as given. */
  lemma GivenFieldsUsed(input: string, maxNewTokens: int, temperature: real)
    ensures SettingsFor(RequestBody(input, Some(maxNewTokens), Some(temperature))) == Settings(maxNewTokens, temperature, 0.9, true)
  {
  }

  /**
   * The settings the chat component sends are exactly the server's
   * defaults, so the handler answers its request as it answers a body that
   * leaves both fields out.
   */
  lemma ClientSendsDefaults(text: string, generate: (string, Settings) -> Generation)
    ensures SettingsFor(FromClient(MayaChat.RequestFor(text))) == SettingsFor(RequestBody(text, None, None))
    ensures MayaReply(FromClient(MayaChat.RequestFor(text)), generate) == MayaReply(RequestBody(text, None, None), generate)
  {
  }

  /** The prompt framing the user's input. */
  function Prompt(input: string): (p: string)
    ensures |p| == |input| + 12
    ensures p[..6] == "User: " && p[6..|p| - 6] == input && p[|p| - 6..] == "\nMaya:"
  {
    var p := "User: " + input + "\nMaya:";
    assert p[6..|p| - 6] == input;
    assert p[|p| - 6..] == "\nMaya:";
    p
  }

  /** The first step: the echoed prompt, when the output starts with it, is removed and the rest stripped. */
  function StripEcho(prompt: string, generated: string): string {
    if prompt <= generated then PyStrip(generated[|prompt|..]) else generated
  }

  /**
   * The second step: a text holding a line break is cut before its first
   * "\nUser:", and the part kept is stripped.
   */
  function CutAtUserTurn(generated: string): string {
    if Contains(generated, "\n") then
      var idx := IndexOf(generated, UserTurn);
      if idx != -1 then PyStrip(generated[..idx]) else generated
    else generated
  }

  /** The reply made of the decoded output for `prompt`. */
  function PostProcess(prompt: string, generated: string): string {
    CutAtUserTurn(StripEcho(prompt, generated))
  }

  /** `r` occurs in `s` at index `lo`. */
  ghost predicate IsSliceAt(s: string, lo: int, r: string) {
    0 <= lo && lo + |r| <= |s| && s[lo..lo + |r|] == r
  }

  /** A slice of a slice is a slice. */
  lemma SliceOfSlice(s: string, a: nat, t: string, b: nat, r: string)
    requires IsSliceAt(s, a, t) && IsSliceAt(t, b, r)
    ensures IsSliceAt(s, a + b, r)
  {
    var x, y := s[a + b..a + b + |r|], t[b..b + |r|];
    assert forall j :: 0 <= j < |r| ==> x[j] == y[j];
    assert x == y;
  }

  /** Stripping keeps a slice of its argument. */
  lemma PyStripSlice(s: string) returns (lo: nat)
    ensures IsSliceAt(s, lo, PyStrip(s))
  {
    lo := TrimBySlice(s, PySpaces);
  }

  lemma EchoSlice(prompt: string, generated: string) returns (lo: nat)
    requires prompt <= generated
    ensures IsSliceAt(generated, lo, PyStrip(generated[|prompt|..])) && |prompt| <= lo
  {
    var rest := generated[|prompt|..];
    assert IsSliceAt(generated, |prompt|, rest);
    var k := PyStripSlice(rest);
    SliceOfSlice(generated, |prompt|, rest, k, PyStrip(rest));
    lo := |prompt| + k;
  }

  /** The first step keeps a slice of the output that starts after the echoed prompt. */
  lemma StripEchoSlice(prompt: string, generated: string) returns (lo: nat)
    ensures IsSliceAt(generated, lo, StripEcho(prompt, generated))
    ensures prompt <= generated ==> |prompt| <= lo
  {
    if prompt <= generated {
      lo := EchoSlice(prompt, generated);
    } else {
      assert IsSliceAt(generated, 0, generated);
      lo := 0;
    }
  }

  lemma HeadSlice(generated: string, idx: nat) returns (lo: nat)
    requires idx <= |generated|
    ensures IsSliceAt(generated, lo, PyStrip(generated[..idx]))
  {
    var head := generated[..idx];
    assert IsSliceAt(generated, 0, head);
    var k := PyStripSlice(head);
    SliceOfSlice(generated, 0, head, k, PyStrip(head));
    lo := k;
  }

  /** The second step keeps a slice of its argument. */
  lemma CutSlice(generated: string) returns (lo: nat)
    ensures IsSliceAt(generated, lo, CutAtUserTurn(generated))
  {
    assert IsSliceAt(generated, 0, generated);
    lo := 0;
    if Contains(generated, "\n") {
      var idx := IndexOf(generated, UserTurn);
      if idx != -1 {
        lo := HeadSlice(generated, idx);
      }
    }
  }

  /**
   * The reply is one contiguous piece of the decoded output, and when the
   * output echoed the prompt the piece lies entirely after the echo.
   */
  lemma PostProcessSlice(prompt: string, generated: string) returns (lo: nat)
    ensures IsSliceAt(generated, lo, PostProcess(prompt, generated))
    ensures prompt <= generated ==> |prompt| <= lo
  {
    var first := StripEcho(prompt, generated);
    var a := StripEchoSlice(prompt, generated);
    var b := CutSlice(first);
    var r := CutAtUserTurn(first);
    assert PostProcess(prompt, generated) == r;
    SliceOfSlice(generated, a, first, b, r);
    lo := a + b;
  }

  /** The reply is a substring of the decoded output. */
  lemma PostProcessContained(prompt: string, generated: string)
    ensures Contains(generated, PostProcess(prompt, generated))
  {
    var lo := PostProcessSlice(prompt, generated);
    assert OccursAt(generated, PostProcess(prompt, generated), lo);
  }

  /** A text without a line break holds no "\nUser:". */
  lemma NoBreakNoUserTurn(s: string)
    requires !Contains(s, "\n")
    ensures !Contains(s, UserTurn)
  {
    forall i | 0 <= i < |s|
      ensures s[i] != '\n'
    {
      assert s[i..i + 1] == [s[i]];
      assert OccursAt(s, [s[i]], i);
    }
    MissingCharExcludes(s, UserTurn, 0);
  }

  /** Nothing before the first occurrence of `p` contains `p`. */
  lemma BeforeFirstOccurrence(s: string, p: string)
    requires p != [] && IndexOf(s, p) != -1
    ensures !Contains(s[..IndexOf(s, p)], p)
  {
    var idx := IndexOf(s, p);
    if Contains(s[..idx], p) {
      var k :| OccursAt(s[..idx], p, k);
      assert s[..idx] == s[0..idx];
      OccursInSlice(s, 0, idx, p, k);
    }
  }

  /** Stripping a text that lacks `p` leaves a text that lacks `p`. */
  lemma StripKeepsAbsence(t: string, p: string)
    requires !Contains(t, p)
    ensures !Contains(PyStrip(t), p)
  {
    var r := PyStrip(t);
    var lo := PyStripSlice(t);
    assert r == t[lo..lo + |r|];
    SliceKeepsAbsence(t, lo, lo + |r|, p);
  }

  /** After the second step no user turn is left in the text. */
  lemma CutRemovesUserTurn(generated: string)
    ensures !Contains(CutAtUserTurn(generated), UserTurn)
  {
    if !Contains(generated, "\n") {
      NoBreakNoUserTurn(generated);
    } else if IndexOf(generated, UserTurn) != -1 {
      BeforeFirstOccurrence(generated, UserTurn);
      StripKeepsAbsence(generated[..IndexOf(generated, UserTurn)], UserTurn);
    }
  }

  /**
   * A text whose first "\nUser:" starts at index `i` is cut there and the
   * part before it stripped.
   */
  lemma CutAtFirstUserTurn(generated: string, i: int)
    requires OccursAt(generated, UserTurn, i)
    requires forall j :: 0 <= j < i ==> !OccursAt(generated, UserTurn, j)
    ensures CutAtUserTurn(generated) == PyStrip(generated[..i])
  {
    assert OccursAt(generated, "\n", i) by {
      assert generated[i..i + 1] == generated[i..i + |UserTurn|][..1];
    }
    assert IndexOf(generated, UserTurn) == i;
  }

  /** When the model echoes the prompt, only what it generated after the echo is processed. */
  lemma EchoRemoved(input: string, rest: string)
    ensures PostProcess(Prompt(input), Prompt(input) + rest) == CutAtUserTurn(PyStrip(rest))
  {
    var prompt := Prompt(input);
    assert prompt <= prompt + rest;
    assert (prompt + rest)[|prompt|..] == rest;
  }

  /** An output that neither echoes the prompt nor breaks a line is the reply as it is. */
  lemma PlainOutputKept(prompt: string, generated: string)
    requires !(prompt <= generated) && '\n' !in generated
    ensures PostProcess(prompt, generated) == generated
  {
    MissingCharExcludes(generated, "\n", 0);
  }

  /**
   * `maya_reply`, with `generate` standing for tokenizing the prompt, running
   * the model with the request's settings and decoding: an empty input is
   * refused with 400, an exception while generating is answered with 500 and
   * its message, and otherwise the reply is a piece of the output decoded for
   * the framed prompt and the request's settings that holds no further user
   * turn.
   */
  function MayaReply(body: RequestBody, generate: (string, Settings) -> Generation): (r: Response)
    ensures r.HttpError? && r.status == 400 <==> body.input == ""
    ensures r.HttpError? && r.status == 400 ==> r.detail == InputRequired
    ensures r.HttpError? && r.status == 500
            <==> body.input != "" && generate(Prompt(body.input), SettingsFor(body)).GenerationFailed?
    ensures r.HttpError? && r.status == 500 ==> r.detail == "Generation error: " + generate(Prompt(body.input), SettingsFor(body)).error
    ensures r.Reply? <==> body.input != "" && generate(Prompt(body.input), SettingsFor(body)).Decoded?
    ensures r.Reply? ==> Contains(generate(Prompt(body.input), SettingsFor(body)).text, r.reply) && !Contains(r.reply, UserTurn)
  {
    if body.input == "" then HttpError(400, InputRequired)
    else
      match generate(Prompt(body.input), SettingsFor(body))
      case GenerationFailed(e) => HttpError(500, "Generation error: " + e)
      case Decoded(text) =>
        var reply := PostProcess(Prompt(body.input), text);
        PostProcessContained(Prompt(body.input), text);
        CutRemovesUserTurn(StripEcho(Prompt(body.input), text));
        Reply(reply)
  }
}
