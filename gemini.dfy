/** Text generation with model fallback (backend/app/api/gemini.py).
    Each HTTP exchange with the Gemini API is abstracted as a given outcome:
    the model listing is one `ListingOutcome`, and the generation call for a
    model and a prompt is `call(model, prompt)`. What remains is the
    deterministic logic around those calls. */
module Gemini {
  import opened Common

  /** The value of GEMINI_MODEL when the variable is not set. */
  const DefaultConfiguredModel := "gemini-pro"

  /** The models tried after the configured one, in order. */
  const FallbackModels: seq<string> :=
    ["gemini-2.5-flash", "gemini-2.5-flash-lite", "gemini-2.5-pro", "gemini-2.5-flash-preview-09-2025"]

  /** The process environment: GEMINI_API_KEY ("" when unset or empty) and
      GEMINI_MODEL (None when unset). */
  datatype Settings = Settings(apiKey: string, model: Option<string>)

  datatype GeminiRequest = GeminiRequest(
    prompt: string,
    topicId: Option<string>,
    slideId: Option<string>,
    context: Option<string>)

  datatype GeminiResponse = GeminiResponse(
    response: string,
    prompt: string,
    topicId: Option<string>,
    slideId: Option<string>,
    modelUsed: string)

  /** One entry of the model listing; "" stands for a key that is absent or empty. */
  datatype ModelEntry = ModelEntry(name: string, id: string, model: string)

  /** The listing request: it raised, or it answered with a status and entries. */
  datatype ListingOutcome = ListingRaised | ListingReplied(status: int, entries: seq<ModelEntry>)

  /** One part of a candidate's content: a dict with a "text" value, or anything else. */
  datatype Part = TextPart(text: string) | OtherPart

  /** A candidate of a reply; a candidate without content has no parts. */
  datatype Candidate = Candidate(parts: seq<Part>)

  /** A generation call: it raised (any exception inside the attempt, with its
      message), or it answered with a status, a body and the candidates. */
  datatype CallOutcome = Raised(message: string) | Replied(status: int, body: string, candidates: seq<Candidate>)

  /** What an attempt records as `last_error`. */
  datatype AttemptError =
    | NoCandidates(body: string)
    | BadStatus(model: string, status: int, body: string)
    | CallFailed(message: string)

  datatype GeminiError = MissingApiKey | AllModelsFailed(lastError: Option<AttemptError>)

  /** The model a successful fallback settled on and the text it produced. */
  datatype Answer = Answer(model: string, text: string)

  // ---------------------------------------------------------------- prompt

  /** The prompt sent to the models: wrapped with the context when one is
      given and non-empty, otherwise the request's prompt unchanged. */
  function BuildPrompt(prompt: string, context: Option<string>): (r: string)
    ensures context.Some? && context.value != "" ==> r == "Contexto: " + context.value + "\n\nExplique: " + prompt
    ensures context.None? || context.value == "" ==> r == prompt
    ensures |prompt| <= |r| && r[|r| - |prompt|..] == prompt
  {
    if context.Some? && context.value != "" then "Contexto: " + context.value + "\n\nExplique: " + prompt
    else prompt
  }

  /** The prompt summarize_with_gemini asks about. */
  function SummaryPrompt(content: string): string {
    "Por favor, crie um resumo conciso e bem estruturado do seguinte conteúdo:\n\n" + content
  }

  // --------------------------------------------------------- model listing

  /** The name an entry contributes: the first non-empty of name, id and model, or "". */
  function EntryName(e: ModelEntry): string {
    if e.name != "" then e.name else if e.id != "" then e.id else e.model
  }

  /** The names of the entries that have one, in order. */
  function NamesOf(entries: seq<ModelEntry>): (r: seq<string>)
    ensures |r| <= |entries|
    ensures forall k :: 0 <= k < |r| ==> r[k] != ""
    decreases |entries|
  {
    if entries == [] then []
    else
      var n := |entries| - 1;
      NamesOf(entries[..n]) + (if EntryName(entries[n]) != "" then [EntryName(entries[n])] else [])
  }

  /** Every entry that has a name shows up in NamesOf. */
  lemma {:induction false} NamedEntryListed(entries: seq<ModelEntry>, k: nat)
    requires k < |entries| && EntryName(entries[k]) != ""
    ensures EntryName(entries[k]) in NamesOf(entries)
    decreases |entries|
  {
    var n := |entries| - 1;
    if k < n {
      assert entries[..n][k] == entries[k];
      NamedEntryListed(entries[..n], k);
    }
  }

  /** Names are collected entry by entry: the names of a + b are those of a
      followed by those of b. */
  lemma {:induction false} NamesOfAppend(a: seq<ModelEntry>, b: seq<ModelEntry>)
    ensures NamesOf(a + b) == NamesOf(a) + NamesOf(b)
    decreases |b|
  {
    if b == [] {
      assert a + b == a;
    } else {
      var n := |b| - 1;
      assert (a + b)[..|a + b| - 1] == a + b[..n];
      assert (a + b)[|a + b| - 1] == b[n];
      NamesOfAppend(a, b[..n]);
    }
  }

  /** Every listed name is the name of some entry, so no name is made up. */
  lemma {:induction false} ListedNameFromEntry(entries: seq<ModelEntry>, k: nat)
    requires k < |NamesOf(entries)|
    ensures exists j :: 0 <= j < |entries| && NamesOf(entries)[k] == EntryName(entries[j])
    decreases |entries|
  {
    var n := |entries| - 1;
    if k < |NamesOf(entries[..n])| {
      ListedNameFromEntry(entries[..n], k);
      var j :| 0 <= j < |entries[..n]| && NamesOf(entries[..n])[k] == EntryName(entries[..n][j]);
      assert entries[..n][j] == entries[j];
    } else {
      assert NamesOf(entries)[k] == EntryName(entries[n]);
    }
  }

  /** The model ids the listing yields: none when it raised or did not answer 200. */
  function Listed(outcome: ListingOutcome): seq<string> {
    if outcome.ListingReplied? && outcome.status == 200 then NamesOf(outcome.entries) else []
  }

  /** list_available_models: collects the entry names one by one. */
  method ListAvailableModels(outcome: ListingOutcome) returns (models: seq<string>)
    ensures models == Listed(outcome)
    ensures forall k :: 0 <= k < |models| ==> models[k] != ""
  {
    models := [];
    if outcome.ListingRaised? || outcome.status != 200 {
      return;
    }
    var entries := outcome.entries;
    var i := 0;
    while i < |entries|
      invariant 0 <= i <= |entries|
      invariant models == NamesOf(entries[..i])
    {
      var name := EntryName(entries[i]);
      if name != "" {
        models := models + [name];
      }
      assert entries[..i + 1][..i] == entries[..i];
      i := i + 1;
    }
    assert entries[..i] == entries;
  }

  // ------------------------------------------------------- model filtering

  /** Python's `m in a` on strings: m occurs in a as a contiguous substring. */
  predicate IsSubstring(m: string, a: string)
    decreases |a|
  {
    (|m| <= |a| && a[..|m|] == m) || (|a| > 0 && IsSubstring(m, a[1..]))
  }

  /** Some available model id contains the model name. */
  predicate Offered(m: string, available: seq<string>) {
    exists a :: a in available && IsSubstring(m, a)
  }

  /** `[m for m in models if any(m in a for a in available)]`. */
  function KeepOffered(models: seq<string>, available: seq<string>): (r: seq<string>)
    ensures |r| <= |models|
    ensures forall m :: m in r <==> m in models && Offered(m, available)
  {
    if models == [] then []
    else (if Offered(models[0], available) then [models[0]] else []) + KeepOffered(models[1..], available)
  }

  /** The filter keeps order and multiplicity: filtering a + b is filtering a,
      then filtering b. */
  lemma {:induction false} KeepOfferedAppend(a: seq<string>, b: seq<string>, available: seq<string>)
    ensures KeepOffered(a + b, available) == KeepOffered(a, available) + KeepOffered(b, available)
    decreases |a|
  {
    if a == [] {
      assert a + b == b;
    } else {
      assert (a + b)[0] == a[0];
      assert (a + b)[1..] == a[1..] + b;
      KeepOfferedAppend(a[1..], b, available);
    }
  }

  /** A single model is kept exactly when it is offered. */
  lemma KeepOfferedSingle(m: string, available: seq<string>)
    ensures KeepOffered([m], available) == if Offered(m, available) then [m] else []
  {
    assert [m][1..] == [];
  }

  /** The models to try: the offered ones when the listing is non-empty and
      something matches, otherwise the list unchanged. */
  function CandidateModels(models: seq<string>, available: seq<string>): (r: seq<string>)
    ensures |r| <= |models|
    ensures models != [] ==> r != []
    ensures forall m :: m in r ==> m in models
    ensures available != [] && (exists m :: m in models && Offered(m, available)) ==>
      forall m :: m in r <==> m in models && Offered(m, available)
    ensures available == [] ==> r == models
    ensures available != [] && (forall m :: m in models ==> !Offered(m, available)) ==> r == models
  {
    if available == [] then models
    else
      var filtered := KeepOffered(models, available);
      if filtered == [] then models else assert filtered[0] in filtered; filtered
  }

  /** The configured model followed by the fallback list. */
  function ModelsToTry(configured: Option<string>): seq<string> {
    [configured.GetOr(DefaultConfiguredModel)] + FallbackModels
  }

  // ------------------------------------------------------------ reply text

  /** Python's `str.isspace` on one character. */
  predicate IsSpace(c: char) {
    || c == ' ' || c == '\t' || c == '\n' || c == '\r'
    || c == '\U{0b}' || c == '\U{0c}'
    || ('\U{1c}' <= c <= '\U{1f}')
    || c == '\U{85}' || c == '\U{a0}' || c == '\U{1680}'
    || ('\U{2000}' <= c <= '\U{200a}')
    || c == '\U{2028}' || c == '\U{2029}' || c == '\U{202f}' || c == '\U{205f}' || c == '\U{3000}'
  }

  predicate AllSpace(s: string) {
    forall k :: 0 <= k < |s| ==> IsSpace(s[k])
  }

  /** Drops the leading whitespace: what is left is a suffix of s that does
      not start with whitespace, and what was dropped is whitespace. */
  function TrimStart(s: string): (r: string)
    ensures |r| <= |s| && r == s[|s| - |r|..]
    ensures AllSpace(s[..|s| - |r|])
    ensures r != [] ==> !IsSpace(r[0])
  {
    if s != [] && IsSpace(s[0]) then TrimStart(s[1..]) else s
  }

  /** Drops the trailing whitespace: what is left is a prefix of s that does
      not end with whitespace, and what was dropped is whitespace. */
  function TrimEnd(s: string): (r: string)
    ensures |r| <= |s| && r == s[..|r|]
    ensures AllSpace(s[|r|..])
    ensures r != [] ==> !IsSpace(r[|r| - 1])
  {
    if s != [] && IsSpace(s[|s| - 1]) then TrimEnd(s[..|s| - 1]) else s
  }

  /** Python's `str.strip()`. */
  function Strip(s: string): string {
    TrimEnd(TrimStart(s))
  }

  /** Stripping yields "" exactly when the string is all whitespace, and
      otherwise a string that neither starts nor ends with whitespace. */
  lemma StripEmptyIffAllSpace(s: string)
    ensures Strip(s) == "" <==> AllSpace(s)
    ensures Strip(s) != "" ==> !IsSpace(Strip(s)[0]) && !IsSpace(Strip(s)[|Strip(s)| - 1])
  {
    var t := TrimStart(s);
    var r := TrimEnd(t);
    if r == "" {
      assert AllSpace(t[|r|..]);
      assert t == [];
      assert s[..|s| - |t|] == s;
    } else {
      assert r[0] == t[0];
      assert !AllSpace(s) by {
        assert s[|s| - |t|] == t[0];
      }
    }
  }

  /** Every piece is all whitespace. */
  predicate AllPiecesSpace(texts: seq<string>) {
    forall k :: 0 <= k < |texts| ==> AllSpace(texts[k])
  }

  /** Every text part is all whitespace. */
  predicate TextPartsSpace(parts: seq<Part>) {
    forall k :: 0 <= k < |parts| && parts[k].TextPart? ==> AllSpace(parts[k].text)
  }

  /** `"\n".join(texts)`. */
  function JoinLines(texts: seq<string>): (r: string)
    ensures texts == [] ==> r == ""
    ensures |texts| == 1 ==> r == texts[0]
  {
    if texts == [] then ""
    else if |texts| == 1 then texts[0]
    else texts[0] + "\n" + JoinLines(texts[1..])
  }

  /** The joined text is all whitespace exactly when every piece is. */
  lemma {:induction false} JoinAllSpace(texts: seq<string>)
    ensures AllSpace(JoinLines(texts)) <==> AllPiecesSpace(texts)
  {
    if |texts| > 1 {
      JoinAllSpace(texts[1..]);
      var head, tail := texts[0] + "\n", JoinLines(texts[1..]);
      assert JoinLines(texts) == head + tail;
      assert AllSpace(head + tail) <==> AllSpace(head) && AllSpace(tail) by {
        if AllSpace(head) && AllSpace(tail) {
          forall k | 0 <= k < |head + tail| ensures IsSpace((head + tail)[k]) {
            if k >= |head| { assert (head + tail)[k] == tail[k - |head|]; }
          }
        }
        if AllSpace(head + tail) {
          forall k | 0 <= k < |tail| ensures IsSpace(tail[k]) {
            assert (head + tail)[|head| + k] == tail[k];
          }
          forall k | 0 <= k < |head| ensures IsSpace(head[k]) {
            assert (head + tail)[k] == head[k];
          }
        }
      }
      assert AllSpace(head) <==> AllSpace(texts[0]) by {
        if AllSpace(texts[0]) {
          forall k | 0 <= k < |head| ensures IsSpace(head[k]) {
            if k < |texts[0]| { assert head[k] == texts[0][k]; }
          }
        }
        if AllSpace(head) {
          forall k | 0 <= k < |texts[0]| ensures IsSpace(texts[0][k]) {
            assert head[k] == texts[0][k];
          }
        }
      }
      assert AllPiecesSpace(texts) <==> AllSpace(texts[0]) && AllPiecesSpace(texts[1..]) by {
        if AllPiecesSpace(texts[1..]) {
          forall k | 1 <= k < |texts| ensures AllSpace(texts[k]) {
            assert texts[k] == texts[1..][k - 1];
          }
        }
      }
    }
  }

  /** The non-empty "text" parts, in order. */
  function Texts(parts: seq<Part>): (r: seq<string>)
    ensures forall k :: 0 <= k < |r| ==> r[k] != ""
    decreases |parts|
  {
    if parts == [] then []
    else
      var n := |parts| - 1;
      Texts(parts[..n]) + (if parts[n].TextPart? && parts[n].text != "" then [parts[n].text] else [])
  }

  /** Texts are collected part by part: the texts of a + b are those of a
      followed by those of b. */
  lemma {:induction false} TextsAppend(a: seq<Part>, b: seq<Part>)
    ensures Texts(a + b) == Texts(a) + Texts(b)
    decreases |b|
  {
    if b == [] {
      assert a + b == a;
    } else {
      var n := |b| - 1;
      assert (a + b)[..|a + b| - 1] == a + b[..n];
      assert (a + b)[|a + b| - 1] == b[n];
      TextsAppend(a, b[..n]);
    }
  }

  /** A single part contributes its text exactly when it is a non-empty text part. */
  lemma TextsSingle(p: Part)
    ensures Texts([p]) == if p.TextPart? && p.text != "" then [p.text] else []
  {
    assert [p][..0] == [];
  }

  /** The text pieces are all whitespace exactly when every text part is. */
  lemma {:induction false} TextsAllSpace(parts: seq<Part>)
    ensures AllPiecesSpace(Texts(parts)) <==> TextPartsSpace(parts)
    decreases |parts|
  {
    if parts != [] {
      var n := |parts| - 1;
      TextsAllSpace(parts[..n]);
      var front, last := Texts(parts[..n]), Texts(parts) [|Texts(parts[..n])|..];
      assert Texts(parts) == front + last;
      assert forall k :: 0 <= k < n ==> parts[..n][k] == parts[k];
      if TextPartsSpace(parts) {
        forall k | 0 <= k < |Texts(parts)| ensures AllSpace(Texts(parts)[k]) {
          if k < |front| { assert Texts(parts)[k] == front[k]; }
        }
      }
      if AllPiecesSpace(Texts(parts)) {
        forall k | 0 <= k < |front| ensures AllSpace(front[k]) {
          assert Texts(parts)[k] == front[k];
        }
        if parts[n].TextPart? && parts[n].text != "" {
          assert Texts(parts)[|front|] == parts[n].text;
        }
      }
    }
  }

  /** The text of a candidate: its non-empty text parts joined by newlines, stripped. */
  function ReplyText(c: Candidate): string {
    Strip(JoinLines(Texts(c.parts)))
  }

  /** A candidate yields no text exactly when every text part is whitespace. */
  lemma ReplyTextEmptyIff(c: Candidate)
    ensures ReplyText(c) == "" <==> TextPartsSpace(c.parts)
  {
    StripEmptyIffAllSpace(JoinLines(Texts(c.parts)));
    JoinAllSpace(Texts(c.parts));
    TextsAllSpace(c.parts);
    assert ReplyText(c) == "" <==> AllSpace(JoinLines(Texts(c.parts)));
    assert AllSpace(JoinLines(Texts(c.parts))) <==> AllPiecesSpace(Texts(c.parts));
  }

  /** Collects the non-empty text parts one by one. */
  method CollectTexts(parts: seq<Part>) returns (texts: seq<string>)
    ensures texts == Texts(parts)
  {
    texts := [];
    var i := 0;
    while i < |parts|
      invariant 0 <= i <= |parts|
      invariant texts == Texts(parts[..i])
    {
      var p := parts[i];
      if p.TextPart? && p.text != "" {
        texts := texts + [p.text];
      }
      assert parts[..i + 1][..i] == parts[..i];
      i := i + 1;
    }
    assert parts[..i] == parts;
  }

  // --------------------------------------------------------------- fallback

  /** One attempt with one model: the text of the first candidate of a 200
      reply when it is non-empty, otherwise the error the attempt records. */
  function Attempt(model: string, outcome: CallOutcome): (r: Result<string, AttemptError>)
    ensures r.Success? ==> r.value != "" && outcome.Replied? && outcome.status == 200
    ensures outcome.Raised? ==> r == Failure(CallFailed(outcome.message))
    ensures outcome.Replied? && outcome.status != 200 ==> r == Failure(BadStatus(model, outcome.status, outcome.body))
    ensures outcome.Replied? && outcome.status == 200 && |outcome.candidates| > 0 && ReplyText(outcome.candidates[0]) != "" ==>
      r == Success(ReplyText(outcome.candidates[0]))
    ensures outcome.Replied? && outcome.status == 200 && (|outcome.candidates| == 0 || ReplyText(outcome.candidates[0]) == "") ==>
      r == Failure(NoCandidates(outcome.body))
  {
    match outcome
    case Raised(message) => Failure(CallFailed(message))
    case Replied(status, body, candidates) =>
      if status != 200 then Failure(BadStatus(model, status, body))
      else if |candidates| > 0 && ReplyText(candidates[0]) != "" then Success(ReplyText(candidates[0]))
      else Failure(NoCandidates(body))
  }

  /** The model yields text for the prompt (empty names are never tried). */
  predicate Works(model: string, prompt: string, call: (string, string) -> CallOutcome) {
    model != "" && Attempt(model, call(model, prompt)).Success?
  }

  /** The fallback loop: try the models in order, skipping empty names,
      stop at the first that yields text, and otherwise carry the last error. */
  function Fallback(models: seq<string>, prompt: string, call: (string, string) -> CallOutcome,
                    lastError: Option<AttemptError>): Result<Answer, Option<AttemptError>>
    decreases |models|
  {
    if models == [] then Failure(lastError)
    else if models[0] == "" then Fallback(models[1..], prompt, call, lastError)
    else match Attempt(models[0], call(models[0], prompt))
      case Success(text) => Success(Answer(models[0], text))
      case Failure(e) => Fallback(models[1..], prompt, call, Some(e))
  }

  /** One step of the fallback: an empty name is skipped, a model that yields
      text answers, and a failing model's error becomes the last error. */
  lemma FallbackStep(models: seq<string>, i: nat, prompt: string, call: (string, string) -> CallOutcome,
                     lastError: Option<AttemptError>)
    requires i < |models|
    ensures models[i] == "" ==>
      Fallback(models[i..], prompt, call, lastError) == Fallback(models[i + 1..], prompt, call, lastError)
    ensures models[i] != "" && Attempt(models[i], call(models[i], prompt)).Success? ==>
      Fallback(models[i..], prompt, call, lastError)
        == Success(Answer(models[i], Attempt(models[i], call(models[i], prompt)).value))
    ensures models[i] != "" && Attempt(models[i], call(models[i], prompt)).Failure? ==>
      Fallback(models[i..], prompt, call, lastError)
        == Fallback(models[i + 1..], prompt, call, Some(Attempt(models[i], call(models[i], prompt)).error))
  {
    assert models[i..][0] == models[i] && models[i..][1..] == models[i + 1..];
  }

  /** The last non-empty model name of the list, if any. */
  function LastTried(models: seq<string>): (r: Option<string>)
    ensures r.Some? ==> r.value != "" && r.value in models
  {
    if models == [] then None
    else
      var rest := LastTried(models[1..]);
      if rest.Some? then rest else if models[0] != "" then Some(models[0]) else None
  }

  /** When some model works, the fallback answers with the first one that
      does, and with that model's text. */
  lemma {:induction false} FallbackPicksFirstWorking(models: seq<string>, prompt: string,
      call: (string, string) -> CallOutcome, lastError: Option<AttemptError>, i: nat)
    requires i < |models| && Works(models[i], prompt, call)
    requires forall j :: 0 <= j < i ==> !Works(models[j], prompt, call)
    ensures Fallback(models, prompt, call, lastError)
         == Success(Answer(models[i], Attempt(models[i], call(models[i], prompt)).value))
    decreases i
  {
    if i > 0 {
      assert !Works(models[0], prompt, call);
      var e := if models[0] == "" then lastError else Some(Attempt(models[0], call(models[0], prompt)).error);
      assert Fallback(models, prompt, call, lastError) == Fallback(models[1..], prompt, call, e);
      forall j | 0 <= j < i - 1 ensures !Works(models[1..][j], prompt, call) {
        assert models[1..][j] == models[j + 1];
      }
      FallbackPicksFirstWorking(models[1..], prompt, call, e, i - 1);
    }
  }

  /** When no model works, the fallback fails with the error of the last
      model it tried, or with the error it started from if it tried none. */
  lemma {:induction false} FallbackFailsWithLastError(models: seq<string>, prompt: string,
      call: (string, string) -> CallOutcome, lastError: Option<AttemptError>)
    requires forall j :: 0 <= j < |models| ==> !Works(models[j], prompt, call)
    ensures var f := Fallback(models, prompt, call, lastError);
      match LastTried(models)
      case None => f == Failure(lastError)
      case Some(m) => Attempt(m, call(m, prompt)).Failure? && f == Failure(Some(Attempt(m, call(m, prompt)).error))
    decreases |models|
  {
    if models != [] {
      assert !Works(models[0], prompt, call);
      var e := if models[0] == "" then lastError else Some(Attempt(models[0], call(models[0], prompt)).error);
      forall j | 0 <= j < |models[1..]| ensures !Works(models[1..][j], prompt, call) {
        assert models[1..][j] == models[j + 1];
      }
      FallbackFailsWithLastError(models[1..], prompt, call, e);
    }
  }

  /** A successful fallback names a non-empty model of the list and a non-empty text. */
  lemma {:induction false} FallbackAnswerTried(models: seq<string>, prompt: string,
      call: (string, string) -> CallOutcome, lastError: Option<AttemptError>)
    ensures var f := Fallback(models, prompt, call, lastError);
      f.Success? ==> f.value.model in models && Works(f.value.model, prompt, call) && f.value.text != ""
    decreases |models|
  {
    if models != [] && models[0] == "" {
      FallbackAnswerTried(models[1..], prompt, call, lastError);
    } else if models != [] {
      match Attempt(models[0], call(models[0], prompt))
      case Success(_) =>
      case Failure(e) => FallbackAnswerTried(models[1..], prompt, call, Some(e));
    }
  }

  // -------------------------------------------------------------- endpoint

  /** What generate_with_gemini answers for a request, given the environment
      and the outcomes of the calls. */
  function Generated(env: Settings, request: GeminiRequest, listing: ListingOutcome,
                     call: (string, string) -> CallOutcome): Result<GeminiResponse, GeminiError>
  {
    if env.apiKey == "" then Failure(MissingApiKey)
    else
      var models := CandidateModels(ModelsToTry(env.model), Listed(listing));
      match Fallback(models, BuildPrompt(request.prompt, request.context), call, None)
      case Success(a) => Success(GeminiResponse(a.text, request.prompt, request.topicId, request.slideId, a.model))
      case Failure(e) => Failure(AllModelsFailed(e))
  }

  /** generate_with_gemini: refuses without an API key, builds the prompt,
      narrows the models to the listed ones, then tries them in order. */
  method GenerateWithGemini(env: Settings, request: GeminiRequest, listing: ListingOutcome,
                            call: (string, string) -> CallOutcome)
    returns (r: Result<GeminiResponse, GeminiError>)
    ensures r == Generated(env, request, listing, call)
    ensures env.apiKey == "" ==> r == Failure(MissingApiKey)
    ensures r.Success? ==> && r.value.prompt == request.prompt
                           && r.value.topicId == request.topicId && r.value.slideId == request.slideId
                           && r.value.modelUsed != "" && r.value.response != ""
  {
    if env.apiKey == "" {
      return Failure(MissingApiKey);
    }
    var fullPrompt := BuildPrompt(request.prompt, request.context);
    var available := ListAvailableModels(listing);
    var models := CandidateModels(ModelsToTry(env.model), available);
    FallbackAnswerTried(models, fullPrompt, call, None);
    var lastError: Option<AttemptError> := None;
    var i := 0;
    while i < |models|
      invariant 0 <= i <= |models|
      invariant Fallback(models, fullPrompt, call, None) == Fallback(models[i..], fullPrompt, call, lastError)
    {
      var model := models[i];
      FallbackStep(models, i, fullPrompt, call, lastError);
      if model != "" {
        var outcome := call(model, fullPrompt);
        match outcome
        case Raised(message) =>
          lastError := Some(CallFailed(message));
        case Replied(status, body, candidates) =>
          if status == 200 {
            if |candidates| > 0 {
              var texts := CollectTexts(candidates[0].parts);
              var text := Strip(JoinLines(texts));
              assert text == ReplyText(candidates[0]);
              if text != "" {
                return Success(GeminiResponse(text, request.prompt, request.topicId, request.slideId, model));
              }
            }
            lastError := Some(NoCandidates(body));
          } else {
            lastError := Some(BadStatus(model, status, body));
          }
      }
      i := i + 1;
    }
    r := Failure(AllModelsFailed(lastError));
  }

  /** summarize_with_gemini: generation for the summary prompt of the content,
      with no slide and no context. */
  method SummarizeWithGemini(env: Settings, content: string, topicId: Option<string>,
                             listing: ListingOutcome, call: (string, string) -> CallOutcome)
    returns (r: Result<GeminiResponse, GeminiError>)
    ensures r == Generated(env, GeminiRequest(SummaryPrompt(content), topicId, None, None), listing, call)
    ensures r.Success? ==> r.value.prompt == SummaryPrompt(content) && r.value.topicId == topicId && r.value.slideId == None
  {
    r := GenerateWithGemini(env, GeminiRequest(SummaryPrompt(content), topicId, None, None), listing, call);
  }
}
