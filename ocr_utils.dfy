/**
 * `utils_openai_ocr.py`: the OCR request sent for one image (model choice,
 * messages, token-limit parameter), the clean-up and parse fallbacks applied
 * to the model's reply, and the resize arithmetic. The API, the JSON decoder,
 * the `unicode-escape` codec and the image encoder are parameters.
 */
module OcrUtils {
  import opened Wrappers
  import opened Text
  import opened JsonValue
  import opened Dicts
  import opened Seqs

  // ---------------------------------------------------------------------------
  // Lines 132-142: the vision models and the fallback

  datatype Model = Gpt4o | Gpt4oMini | Gpt5 | Gpt5Mini

  function ModelName(m: Model): string {
    match m
    case Gpt4o => "gpt-4o"
    case Gpt4oMini => "gpt-4o-mini"
    case Gpt5 => "gpt-5"
    case Gpt5Mini => "gpt-5-mini"
  }

  /** Lines 140-142: an unrecognised name falls back to gpt-4o-mini. */
  function ModelOf(name: string): (m: Model)
    ensures name == ModelName(m) || m == Gpt4oMini
    ensures name !in {"gpt-4o", "gpt-4o-mini", "gpt-5", "gpt-5-mini"} ==> m == Gpt4oMini
  {
    if name == "gpt-4o" then Gpt4o
    else if name == "gpt-5" then Gpt5
    else if name == "gpt-5-mini" then Gpt5Mini
    else Gpt4oMini
  }

  /** Lines 140-142: the name kept when the table knows it, otherwise the fallback's. */
  lemma ModelFallback(name: string)
    ensures var model := if name !in {"gpt-4o", "gpt-4o-mini", "gpt-5", "gpt-5-mini"} then "gpt-4o-mini" else name;
      model == ModelName(ModelOf(name)) && ModelOf(model) == ModelOf(name)
  {
  }

  /** A recognised name selects its own model. */
  lemma ModelOfName(m: Model)
    ensures ModelOf(ModelName(m)) == m
  {
  }

  /** The `use_max_completion_tokens` entry of the table. */
  predicate UsesMaxCompletionTokens(m: Model) { m == Gpt5 || m == Gpt5Mini }

  // ---------------------------------------------------------------------------
  // Lines 148-182: the request

  datatype Part = TextPart(text: string) | ImageUrlPart(url: string)

  datatype Content = Plain(text: string) | Parts(parts: seq<Part>)

  datatype Message = Message(role: string, content: Content)

  /** The values stored in `request_params`. */
  datatype Param = PString(s: string) | PMessages(messages: seq<Message>) | PFormat(kind: string) | PInt(n: nat)

  /** `if system_prompt:` for `None` or a string. */
  predicate SystemTruthy(systemPrompt: Option<string>) { systemPrompt.Some? && systemPrompt.value != "" }

  function UserMessage(prompt: string, base64Image: string): Message {
    Message("user", Parts([TextPart(prompt), ImageUrlPart("data:image/png;base64," + base64Image)]))
  }

  /** Lines 148-169: a system message first exactly when the system prompt is truthy; the user message last. */
  function Messages(prompt: string, systemPrompt: Option<string>, base64Image: string): (r: seq<Message>)
    ensures |r| == if SystemTruthy(systemPrompt) then 2 else 1
    ensures r[0].role == "system" <==> SystemTruthy(systemPrompt)
    ensures SystemTruthy(systemPrompt) ==> r[0] == Message("system", Plain(systemPrompt.value))
    ensures r[|r| - 1] == UserMessage(prompt, base64Image)
  {
    (if SystemTruthy(systemPrompt) then [Message("system", Plain(systemPrompt.value))] else [])
      + [UserMessage(prompt, base64Image)]
  }

  /** The key under which the token limit is sent. */
  function TokenKey(m: Model): (k: string)
    ensures k == "max_completion_tokens" <==> UsesMaxCompletionTokens(m)
    ensures k == "max_tokens" <==> !UsesMaxCompletionTokens(m)
  {
    if UsesMaxCompletionTokens(m) then "max_completion_tokens" else "max_tokens"
  }

  /**
   * Lines 140-182: the parameters of the API call, as a dict in insertion
   * order: the model actually used, the messages, the JSON response format
   * and the token limit under the key that model takes.
   */
  function Request(base64Image: string, modelName: string, maxTokens: nat, prompt: string, systemPrompt: Option<string>)
    : (r: seq<(string, Param)>)
    ensures var m := ModelOf(modelName);
      && KeySeq(r) == ["model", "messages", "response_format", TokenKey(m)]
      && Lookup(r, "model") == Some(PString(ModelName(m)))
      && Lookup(r, "messages") == Some(PMessages(Messages(prompt, systemPrompt, base64Image)))
      && Lookup(r, TokenKey(m)) == Some(PInt(maxTokens))
    ensures ("max_tokens" in KeySeq(r)) != ("max_completion_tokens" in KeySeq(r))
  {
    var m := ModelOf(modelName);
    var base := [("model", PString(ModelName(m))), ("messages", PMessages(Messages(prompt, systemPrompt, base64Image))),
                 ("response_format", PFormat("json_object"))];
    RequestShape(base, TokenKey(m), PInt(maxTokens));
    OneTokenKey(KeySeq(Put(base, TokenKey(m), PInt(maxTokens))), TokenKey(m));
    Put(base, TokenKey(m), PInt(maxTokens))
  }

  /** Lines 140-182, step by step: the fallback, the messages, then the token limit. */
  method BuildRequest(base64Image: string, modelName: string, maxTokens: nat, prompt: string, systemPrompt: Option<string>)
    returns (requestParams: seq<(string, Param)>)
    ensures requestParams == Request(base64Image, modelName, maxTokens, prompt, systemPrompt)
  {
    var model := modelName;
    if model !in {"gpt-4o", "gpt-4o-mini", "gpt-5", "gpt-5-mini"} {
      model := "gpt-4o-mini";
    }
    ModelFallback(modelName);
    var m := ModelOf(model);
    var messages: seq<Message> := [];
    if SystemTruthy(systemPrompt) {
      messages := messages + [Message("system", Plain(systemPrompt.value))];
      assert messages == [Message("system", Plain(systemPrompt.value))];
    }
    messages := messages + [UserMessage(prompt, base64Image)];
    assert messages == Messages(prompt, systemPrompt, base64Image);
    var base := [("model", PString(model)), ("messages", PMessages(messages)), ("response_format", PFormat("json_object"))];
    var key := if UsesMaxCompletionTokens(m) then "max_completion_tokens" else "max_tokens";
    requestParams := Put(base, key, PInt(maxTokens));
  }

  /** Exactly one of the two token-limit keys is sent. */
  lemma OneTokenKey(keys: seq<string>, key: string)
    requires key == "max_tokens" || key == "max_completion_tokens"
    requires keys == ["model", "messages", "response_format", key]
    ensures ("max_tokens" in keys) != ("max_completion_tokens" in keys)
  {
    var fixed := ["model", "messages", "response_format"];
    assert keys == fixed + [key];
    assert "max_tokens" !in fixed && "max_completion_tokens" !in fixed;
  }

  /** Lines 172-182: the three fixed entries, then the token limit under its own key. */
  lemma RequestShape(base: seq<(string, Param)>, key: string, v: Param)
    requires |base| == 3 && base[0].0 == "model" && base[1].0 == "messages" && base[2].0 == "response_format"
    requires key == "max_tokens" || key == "max_completion_tokens"
    ensures var r := Put(base, key, v);
      && KeySeq(r) == ["model", "messages", "response_format", key]
      && Lookup(r, key) == Some(v)
      && Lookup(r, "model") == Some(base[0].1)
      && Lookup(r, "messages") == Some(base[1].1)
  {
    PutKeys(base, key, v);
    assert KeySeq(base) == ["model", "messages", "response_format"];
    PutLookup(base, key, v, key);
    PutLookup(base, key, v, "model");
    PutLookup(base, key, v, "messages");
  }

  /** What the API returns that the script uses: the reply text (`None` when the model gives none) and the token usage. */
  datatype Reply = Reply(content: Option<string>, promptTokens: nat, completionTokens: nat)

  datatype Meta = Meta(model: string, promptTokens: nat, completionTokens: nat, totalTokens: nat)

  datatype Extracted = Extracted(content: Option<string>, meta: Meta)

  /** Lines 188-211: the reply's text, and the model and token counts it was obtained with. */
  function ExtractedOf(modelName: string, reply: Reply): Extracted {
    Extracted(reply.content, Meta(ModelName(ModelOf(modelName)), reply.promptTokens, reply.completionTokens,
                                  reply.promptTokens + reply.completionTokens))
  }

  /** Lines 124-212, the API call an oracle: the request built from the arguments is sent, and its reply reported. */
  method ExtractTextFromImage(base64Image: string, modelName: string, maxTokens: nat, prompt: string,
                              systemPrompt: Option<string>, api: seq<(string, Param)> -> Reply)
    returns (result: Extracted)
    ensures var reply := api(Request(base64Image, modelName, maxTokens, prompt, systemPrompt));
      && result.content == reply.content
      && result.meta.model == ModelName(ModelOf(modelName))
      && result.meta.promptTokens == reply.promptTokens
      && result.meta.completionTokens == reply.completionTokens
      && result.meta.totalTokens == reply.promptTokens + reply.completionTokens
    ensures result == ExtractedOf(modelName, api(Request(base64Image, modelName, maxTokens, prompt, systemPrompt)))
  {
    var requestParams := BuildRequest(base64Image, modelName, maxTokens, prompt, systemPrompt);
    var response := api(requestParams);
    var totalTokens := response.promptTokens + response.completionTokens;
    result := Extracted(response.content, Meta(ModelName(ModelOf(modelName)), response.promptTokens, response.completionTokens, totalTokens));
  }

  // ---------------------------------------------------------------------------
  // Lines 20-97: parse_json_response

  /** `str.strip()`. */
  function Strip(s: string): string { Trim(s, PySpace) }

  predicate IsQuote(c: char) { c == '\'' || c == '"' || c == '`' }

  /** Length of the longest run of `p` at the end of `s`. */
  function RunBack(s: string, p: char -> bool): (k: nat)
    ensures k <= |s| && (forall i | |s| - k <= i < |s| :: p(s[i])) && (k < |s| ==> !p(s[|s| - k - 1]))
  {
    if s != [] && p(s[|s| - 1]) then
      var k := RunBack(s[..|s| - 1], p);
      assert forall i | |s| - 1 - k <= i < |s| - 1 :: s[i] == s[..|s| - 1][i];
      k + 1
    else 0
  }

  /** Line 37: `^```(?:json|JSON)?\s*\n?` removed. */
  function DropOpenFence(s: string): string {
    if !StartsWith(s, "```") then s
    else
      var t := s[3..];
      var u := if StartsWith(t, "json") || StartsWith(t, "JSON") then t[4..] else t;
      TrimLeft(u, PySpace)
  }

  /**
   * Line 38: `\n?```\s*$` removed from a stripped text. Without trailing
   * blanks a match can only be the final three backticks, with the newline
   * before them when there is one.
   */
  function DropCloseFence(s: string): string {
    if !EndsWith(s, "```") then s
    else
      var t := s[..|s| - 3];
      if EndsWith(t, "\n") then t[..|t| - 1] else t
  }

  /** Line 41: a leading run of three or more quote characters, and the blanks after it, removed. */
  function DropOpenQuotes(s: string): string {
    var q := Run(s, IsQuote);
    if q >= 3 then TrimLeft(s[q..], PySpace) else s
  }

  /** Line 42: a trailing run of three or more quote characters, and the blanks before it, removed. */
  function DropCloseQuotes(s: string): string {
    var q := RunBack(s, IsQuote);
    if q >= 3 then TrimRight(s[..|s| - q], PySpace) else s
  }

  /** Line 45: a leading "json" in any case, and the blanks after it, removed. */
  function DropJsonTag(s: string): string {
    if |s| >= 4 && Lower(s[..4]) == "json" then TrimLeft(s[4..], PySpace) else s
  }

  /** `\b` + `w` + `\b` at index `i`, with `w` starting and ending in word characters. */
  predicate WordAt(s: string, i: nat, w: string) {
    && i + |w| <= |s| && s[i..i + |w|] == w
    && (i == 0 || !IsWordChar(s[i - 1]))
    && (i + |w| == |s| || !IsWordChar(s[i + |w|]))
  }

  /** `re.sub(r"\b" + w + r"\b", rep, s)` from index `i` on, matches taken left to right. */
  function ReplaceWordFrom(s: string, i: nat, w: string, rep: string): string
    requires w != []
    decreases |s| - i
  {
    if i >= |s| then []
    else if WordAt(s, i, w) then rep + ReplaceWordFrom(s, i + |w|, w, rep)
    else [s[i]] + ReplaceWordFrom(s, i + 1, w, rep)
  }

  function ReplaceWord(s: string, w: string, rep: string): string
    requires w != []
  {
    ReplaceWordFrom(s, 0, w, rep)
  }

  /** Lines 52-54 and 91-93: Python's literals rewritten as JSON's. */
  function JsonLiterals(s: string): string {
    ReplaceWord(ReplaceWord(ReplaceWord(s, "None", "null"), "True", "true"), "False", "false")
  }

  /** Line 60: `"\\n" in content or "\\t" in content or '\\"' in content`. */
  predicate HasEscapes(s: string) { Contains(s, "\\n") || Contains(s, "\\t") || Contains(s, "\\\"") }

  /** Lines 58-64: the text decoded with `unicode-escape` when it shows escapes, unless decoding fails. */
  function Unescape(s: string, unicodeEscape: string -> Option<string>): string {
    if HasEscapes(s) then unicodeEscape(s).GetOr(s) else s
  }

  /** The text is replaced by its decoding exactly when it shows escapes and decodes. */
  lemma UnescapeCases(s: string, unicodeEscape: string -> Option<string>)
    ensures HasEscapes(s) && unicodeEscape(s).Some? ==> Unescape(s, unicodeEscape) == unicodeEscape(s).value
    ensures !(HasEscapes(s) && unicodeEscape(s).Some?) ==> Unescape(s, unicodeEscape) == s
  {
  }

  /** Lines 37-38: the markdown fences. */
  function AfterFences(s: string): string {
    DropCloseFence(Strip(DropOpenFence(Strip(s))))
  }

  /** Lines 41-62: the quotes, the tag, the literals and the escapes. */
  function AfterFencesCleaned(s: string, unicodeEscape: string -> Option<string>): string {
    var c := DropCloseQuotes(Strip(DropOpenQuotes(Strip(s))));
    var d := Strip(DropJsonTag(Strip(c)));
    Unescape(JsonLiterals(d), unicodeEscape)
  }

  /** The text line 79 hands to `json.loads`. */
  function Cleaned(s: string, unicodeEscape: string -> Option<string>): string {
    AfterFencesCleaned(AfterFences(s), unicodeEscape)
  }

  /** What `parse_json_response` returns: a decoded value, the original text, or the original `None`. */
  datatype Parsed = Value(v: Json) | Original(text: string) | NoContent

  /**
   * Lines 78-97: the cleaned text is decoded if it can be; failing that the
   * original text; failing that the original with Python literals replaced;
   * failing all three, the original text itself.
   */
  function Parsing(content: string, loads: string -> Option<Json>, unicodeEscape: string -> Option<string>): (r: Parsed)
    ensures !r.NoContent?
    ensures r.Original? ==> r.text == content
  {
    if loads(Cleaned(content, unicodeEscape)).Some? then Value(loads(Cleaned(content, unicodeEscape)).value)
    else if loads(content).Some? then Value(loads(content).value)
    else if loads(JsonLiterals(content)).Some? then Value(loads(JsonLiterals(content)).value)
    else Original(content)
  }

  /**
   * Lines 20-97 on the reply's content. `None` has no `strip` (line 37), and
   * `json.loads` (line 87) and `re.sub` (line 91) refuse it, so every step
   * raises and the original `None` comes back.
   */
  function ParsingReply(content: Option<string>, loads: string -> Option<Json>, unicodeEscape: string -> Option<string>)
    : (r: Parsed)
    ensures r == NoContent <==> content.None?
    ensures r.Original? ==> content == Some(r.text)
  {
    if content.None? then NoContent else Parsing(content.value, loads, unicodeEscape)
  }

  /** Lines 20-97, with `json.loads` as `loads` (`None` when it raises). */
  method ParseJsonResponse(reply: Option<string>, loads: string -> Option<Json>, unicodeEscape: string -> Option<string>)
    returns (r: Parsed)
    ensures r == ParsingReply(reply, loads, unicodeEscape)
    ensures reply.None? ==> r == NoContent
    ensures reply.Some? ==> var content := reply.value;
      && (loads(Cleaned(content, unicodeEscape)).Some? ==> r == Value(loads(Cleaned(content, unicodeEscape)).value))
      && (loads(Cleaned(content, unicodeEscape)).None? && loads(content).Some? ==> r == Value(loads(content).value))
      && (loads(Cleaned(content, unicodeEscape)).None? && loads(content).None? && loads(JsonLiterals(content)).Some? ==>
            r == Value(loads(JsonLiterals(content)).value))
      && (loads(Cleaned(content, unicodeEscape)).None? && loads(content).None? && loads(JsonLiterals(content)).None? ==>
            r == Original(content))
  {
    if reply.None? {
      return NoContent;
    }
    var content := reply.value;
    var originalContent := content;
    var text := DropOpenFence(Strip(content));
    text := DropCloseFence(Strip(text));
    ghost var fenced := text;
    assert fenced == AfterFences(content);
    text := DropOpenQuotes(Strip(text));
    text := DropCloseQuotes(Strip(text));
    text := DropJsonTag(Strip(text));
    text := Strip(text);
    text := ReplaceWord(text, "None", "null");
    text := ReplaceWord(text, "True", "true");
    text := ReplaceWord(text, "False", "false");
    ghost var literals := text;
    assert literals == JsonLiterals(Strip(DropJsonTag(Strip(DropCloseQuotes(Strip(DropOpenQuotes(Strip(fenced))))))));
    UnescapeCases(text, unicodeEscape);
    if HasEscapes(text) {
      var decoded := unicodeEscape(text);
      if decoded.Some? {
        text := decoded.value;
      }
    }
    assert text == Unescape(literals, unicodeEscape);
    assert text == Cleaned(content, unicodeEscape);
    var parsed := loads(text);
    if parsed.Some? {
      return Value(parsed.value);
    }
    parsed := loads(originalContent);
    if parsed.Some? {
      return Value(parsed.value);
    }
    var cleaned := ReplaceWord(originalContent, "None", "null");
    cleaned := ReplaceWord(cleaned, "True", "true");
    cleaned := ReplaceWord(cleaned, "False", "false");
    assert cleaned == JsonLiterals(content);
    parsed := loads(cleaned);
    if parsed.Some? {
      return Value(parsed.value);
    }
    return Original(originalContent);
  }

  /** Past the opening backticks, only the optional tag and the blanks after it are dropped. */
  lemma FenceOpened(u: string)
    ensures DropOpenFence("```" + u) ==
      TrimLeft(if StartsWith(u, "json") || StartsWith(u, "JSON") then u[4..] else u, PySpace)
  {
    var s := "```" + u;
    assert s[..3] == "```" && s[3..] == u;
  }

  /** A tag of "json" or "JSON", or none, is skipped up to the newline that ends the fence line. */
  lemma TagSkipped(tag: string, nl: string)
    requires tag == "" || tag == "json" || tag == "JSON"
    requires nl != [] && nl[0] == '\n'
    ensures (if StartsWith(tag + nl, "json") || StartsWith(tag + nl, "JSON") then (tag + nl)[4..] else tag + nl) == nl
  {
    var u := tag + nl;
    if tag == "" {
      assert u == nl;
      assert |u| < 4 || u[..4][0] == '\n';
    } else {
      assert u[..4] == tag && u[4..] == nl;
    }
  }

  /** The newline ending the fence line is a blank, and the body starts with none. */
  lemma BlankLineSkipped(rest: string)
    requires rest != [] && !PySpace(rest[0])
    ensures TrimLeft("\n" + rest, PySpace) == rest
  {
    assert "\n" + rest == ['\n'] + rest;
    TrimLeftBlank('\n', rest, PySpace);
    TrimLeftOfClean(rest, PySpace);
  }

  lemma OpenFenceDropped(body: string, tag: string)
    requires tag == "" || tag == "json" || tag == "JSON"
    requires body != [] && !PySpace(body[0])
    ensures DropOpenFence("```" + (tag + ("\n" + (body + "\n```")))) == body + "\n```"
  {
    var rest := body + "\n```";
    var nl := "\n" + rest;
    FenceOpened(tag + nl);
    TagSkipped(tag, nl);
    BlankLineSkipped(rest);
  }

  lemma CloseFenceDropped(body: string)
    ensures DropCloseFence(body + "\n```") == body
  {
    var s := body + "\n```";
    assert s[..|s| - 3] == body + "\n";
    assert (body + "\n")[..|body|] == body;
  }

  /** A text without fences or surrounding blanks is untouched by the fence steps. */
  lemma NoFenceKept(body: string)
    requires body != [] && !PySpace(body[0]) && !PySpace(body[|body| - 1])
    requires !StartsWith(body, "```") && !EndsWith(body, "```")
    ensures AfterFences(body) == body
  {
    TrimLeftOfClean(body, PySpace);
    TrimRightOfClean(body, PySpace);
  }

  /**
   * A reply wrapped in a ```json fence (or a bare ``` fence) is cleaned as
   * the reply itself would be.
   */
  lemma FenceIgnored(body: string, tag: string, unicodeEscape: string -> Option<string>)
    requires tag == "" || tag == "json" || tag == "JSON"
    requires body != [] && !PySpace(body[0]) && !PySpace(body[|body| - 1])
    requires !StartsWith(body, "```") && !EndsWith(body, "```")
    ensures Cleaned("```" + (tag + ("\n" + (body + "\n```"))), unicodeEscape) == Cleaned(body, unicodeEscape)
  {
    var open := body + "\n```";
    var inner := tag + ("\n" + open);
    var fenced := "```" + inner;
    AppendEnds("\n", open);
    AppendEnds(tag, "\n" + open);
    AppendEnds("```", inner);
    TrimLeftOfClean(fenced, PySpace);
    TrimRightOfClean(fenced, PySpace);
    OpenFenceDropped(body, tag);
    TrimLeftOfClean(open, PySpace);
    TrimRightOfClean(open, PySpace);
    CloseFenceDropped(body);
    NoFenceKept(body);
  }

  /** A text without the word anywhere comes back unchanged. */
  lemma {:induction false} NoWordKept(s: string, i: nat, w: string, rep: string)
    requires w != [] && i <= |s|
    requires forall j | i <= j < |s| :: !WordAt(s, j, w)
    ensures ReplaceWordFrom(s, i, w, rep) == s[i..]
    decreases |s| - i
  {
    if i < |s| {
      NoWordKept(s, i + 1, w, rep);
      assert s[i..] == [s[i]] + s[i + 1..];
    }
  }

  /** `None` inside a longer word is left alone. */
  lemma WordInsideKept()
    ensures ReplaceWord("NoneType", "None", "null") == "NoneType"
  {
    var s := "NoneType";
    forall j | 0 <= j < |s| ensures !WordAt(s, j, "None") {
      if j == 0 {
        assert s[4] == 'T';
      }
    }
    NoWordKept(s, 0, "None", "null");
  }

  /** `None` standing alone is rewritten. */
  lemma WordAloneRewritten()
    ensures ReplaceWord("[None]", "None", "null") == "[null]"
  {
    var t := "[None]";
    assert !WordAt(t, 0, "None");
    assert t[1..5] == "None" && WordAt(t, 1, "None");
    assert !WordAt(t, 5, "None");
    assert ReplaceWordFrom(t, 5, "None", "null") == "]";
  }

  // ---------------------------------------------------------------------------
  // Lines 101-115: resize_image_in_memory

  /** `int(size * resize_percent / 100)` for non-negative sizes. */
  function Scaled(size: nat, percent: nat): nat { size * percent / 100 }

  /** At 100% the image keeps its size, below it it never grows, and the result is the floor of the exact quotient. */
  lemma ScaledBounds(size: nat, p: nat)
    ensures Scaled(size, 100) == size
    ensures p <= 100 ==> Scaled(size, p) <= size
    ensures Scaled(size, p) * 100 <= size * p < (Scaled(size, p) + 1) * 100
  {
  }

  // ---------------------------------------------------------------------------
  // Lines 216-277: process_image_ocr

  const DefaultPrompt := "Extrae toda la informaci\U{f3}n visible en esta imagen.\n        Si contiene tablas, extrae los datos de forma estructurada.\n        Responde \U{da}NICAMENTE en formato JSON v\U{e1}lido."

  datatype OutputJson = OutputJson(output: Json, meta: Meta)

  /** Line 244: the default prompt replaces a missing one, and only a missing one. */
  function PromptText(prompt: Option<string>): string {
    if prompt.Some? then prompt.value else DefaultPrompt
  }

  /** Line 269: a decoded value is stored as such, text that did not decode as a JSON string, and `None` as `null`. */
  function OutputValue(p: Parsed): Json {
    match p
    case Value(v) => v
    case Original(text) => JString(text)
    case NoContent => JNull
  }

  /**
   * The image enters as its size; `encodeResized` stands for resizing,
   * PNG-encoding and base64-encoding it. The file written, if any, is returned
   * with its path.
   */
  method ProcessImageOcr(width: nat, height: nat, resizePercent: nat, modelName: string, maxTokens: nat,
                         outputPath: Option<string>, prompt: Option<string>, systemPrompt: Option<string>,
                         encodeResized: (nat, nat) -> string, api: seq<(string, Param)> -> Reply,
                         loads: string -> Option<Json>, unicodeEscape: string -> Option<string>)
    returns (outputJson: OutputJson, written: Option<(string, OutputJson)>)
    ensures var image := encodeResized(Scaled(width, resizePercent), Scaled(height, resizePercent));
      var reply := api(Request(image, modelName, maxTokens, PromptText(prompt), systemPrompt));
      && outputJson.output == OutputValue(ParsingReply(reply.content, loads, unicodeEscape))
      && outputJson.meta == ExtractedOf(modelName, reply).meta
      && (reply.content.None? ==> outputJson.output == JNull)
    ensures outputJson.meta.model == ModelName(ModelOf(modelName))
    ensures outputJson.meta.totalTokens == outputJson.meta.promptTokens + outputJson.meta.completionTokens
    ensures written.Some? <==> outputPath.Some? && outputPath.value != ""
    ensures written.Some? ==> written.value == (outputPath.value, outputJson)
  {
    var text := if prompt.Some? then prompt.value else DefaultPrompt;
    var b64 := encodeResized(Scaled(width, resizePercent), Scaled(height, resizePercent));
    var result := ExtractTextFromImage(b64, modelName, maxTokens, text, systemPrompt, api);
    ghost var reply := api(Request(b64, modelName, maxTokens, PromptText(prompt), systemPrompt));
    assert result == ExtractedOf(modelName, reply);
    var parsed := ParseJsonResponse(result.content, loads, unicodeEscape);
    var output := match parsed
      case Value(v) => v
      case Original(text) => JString(text)
      case NoContent => JNull;
    assert output == OutputValue(ParsingReply(reply.content, loads, unicodeEscape));
    outputJson := OutputJson(output, result.meta);
    if outputPath.Some? && outputPath.value != "" {
      written := Some((outputPath.value, outputJson));
    } else {
      written := None;
    }
  }
}
