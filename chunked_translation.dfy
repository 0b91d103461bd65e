/** The backend's `/translate` endpoint (backend/main.py): the request text is
    cut into slices of at most MAX_CHUNK characters, each slice is handed to the
    translator with the request's target language, and the outputs are joined
    in order; if the translator raises on any slice, the reply is a fixed
    failure message and everything translated so far is dropped. */
module ChunkedTranslation {
  import opened Optional

  /** Longest slice sent to the translator in one call. */
  const MAX_CHUNK: nat := 500

  /** Target language of a request that does not name one. */
  const DEFAULT_TARGET_LANG: string := "en"

  /** The `translated_text` returned when any translator call raises. */
  const TRANSLATION_FAILED: string := "翻訳に失敗しました"

  /** The body of a `/translate` request, after defaulting. */
  datatype TranslationRequest = TranslationRequest(text: string, targetLang: string)

  /** The translator: `Some(output)` for `translate(chunk, dest).text`,
      `None` when the call raises. */
  type Translator = (string, string) -> Option<string>

  /** One call made on the translator: the slice and the `dest` it was given. */
  datatype TranslatorCall = TranslatorCall(chunk: string, dest: string)

  /** Builds a request from the posted fields; an omitted `target_lang`
      takes the default. */
  function NewRequest(text: string, targetLang: Option<string>): (r: TranslationRequest)
    ensures r.text == text
    ensures targetLang.None? ==> r.targetLang == DEFAULT_TARGET_LANG
    ensures targetLang.Some? ==> r.targetLang == targetLang.value
  {
    TranslationRequest(text, if targetLang.Some? then targetLang.value else DEFAULT_TARGET_LANG)
  }

  function Min(a: int, b: int): int
  {
    if a <= b then a else b
  }

  /** `len(range(0, n, MAX_CHUNK))`. */
  function ChunkCount(n: nat): nat
  {
    (n + MAX_CHUNK - 1) / MAX_CHUNK
  }

  lemma ChunkCountBounds(n: nat)
    ensures ChunkCount(n) * MAX_CHUNK >= n
    ensures n > 0 ==> (ChunkCount(n) - 1) * MAX_CHUNK < n
    ensures n == 0 <==> ChunkCount(n) == 0
  {
  }

  /** `[text[i:i+MAX_CHUNK] for i in range(0, len(text), MAX_CHUNK)]`; the
      upper bound is clamped to the text's length as Python slicing does. */
  function Chunks(text: string): (chunks: seq<string>)
    ensures |chunks| * MAX_CHUNK >= |text|
    ensures |text| > 0 ==> (|chunks| - 1) * MAX_CHUNK < |text|
    ensures chunks == [] <==> text == ""
    ensures forall k :: 0 <= k < |chunks| ==> 0 < |chunks[k]| <= MAX_CHUNK
    ensures forall k :: 0 <= k < |chunks| - 1 ==> |chunks[k]| == MAX_CHUNK
    ensures forall k :: 0 <= k < |chunks| ==>
      chunks[k] == text[k * MAX_CHUNK .. Min((k + 1) * MAX_CHUNK, |text|)]
  {
    ChunkCountBounds(|text|);
    seq(ChunkCount(|text|), k requires 0 <= k < ChunkCount(|text|) =>
      text[k * MAX_CHUNK .. Min((k + 1) * MAX_CHUNK, |text|)])
  }

  /** `"".join(parts)`, built left to right as the endpoint's loop builds it. */
  function Concat(parts: seq<string>): string
  {
    if parts == [] then "" else Concat(parts[..|parts| - 1]) + parts[|parts| - 1]
  }

  /** The first `k` chunks join back to the first `k * MAX_CHUNK` characters. */
  lemma {:induction false} ConcatChunksPrefix(text: string, k: nat)
    requires k <= |Chunks(text)|
    ensures Concat(Chunks(text)[..k]) == text[..Min(k * MAX_CHUNK, |text|)]
  {
    var chunks := Chunks(text);
    if k > 0 {
      ConcatChunksPrefix(text, k - 1);
      assert chunks[..k][..k - 1] == chunks[..k - 1];
      assert Min((k - 1) * MAX_CHUNK, |text|) == (k - 1) * MAX_CHUNK;
      calc {
        Concat(chunks[..k]);
        Concat(chunks[..k - 1]) + chunks[k - 1];
        text[..(k - 1) * MAX_CHUNK] + text[(k - 1) * MAX_CHUNK .. Min(k * MAX_CHUNK, |text|)];
        text[..Min(k * MAX_CHUNK, |text|)];
      }
    }
  }

  /** The chunks rebuild the input exactly. */
  lemma ChunksRoundTrip(text: string)
    ensures Concat(Chunks(text)) == text
  {
    var chunks := Chunks(text);
    ConcatChunksPrefix(text, |chunks|);
    assert chunks[..|chunks|] == chunks;
  }

  /** Every chunk translates without raising. */
  predicate AllTranslated(chunks: seq<string>, dest: string, translator: Translator)
  {
    forall k :: 0 <= k < |chunks| ==> translator(chunks[k], dest).Some?
  }

  /** The translator's outputs, one per chunk, in chunk order. */
  function Outputs(chunks: seq<string>, dest: string, translator: Translator): (outs: seq<string>)
    requires AllTranslated(chunks, dest, translator)
    ensures |outs| == |chunks|
    ensures forall k :: 0 <= k < |chunks| ==> Some(outs[k]) == translator(chunks[k], dest)
  {
    seq(|chunks|, k requires 0 <= k < |chunks| => translator(chunks[k], dest).value)
  }

  /** Index of the first chunk on which the translator raises. */
  function FirstFailure(chunks: seq<string>, dest: string, translator: Translator): (k: nat)
    requires !AllTranslated(chunks, dest, translator)
    ensures k < |chunks|
    ensures translator(chunks[k], dest).None?
    ensures forall j :: 0 <= j < k ==> translator(chunks[j], dest).Some?
  {
    if translator(chunks[0], dest).None? then 0
    else
      assert !AllTranslated(chunks[1..], dest, translator) by {
        var k :| 0 <= k < |chunks| && translator(chunks[k], dest).None?;
        assert chunks[1..][k - 1] == chunks[k];
      }
      1 + FirstFailure(chunks[1..], dest, translator)
  }

  /** One more successful chunk extends the joined output by its translation. */
  lemma TranslatedStep(chunks: seq<string>, dest: string, translator: Translator, i: nat)
    requires i < |chunks|
    requires AllTranslated(chunks[..i], dest, translator)
    requires translator(chunks[i], dest).Some?
    ensures AllTranslated(chunks[..i + 1], dest, translator)
    ensures Concat(Outputs(chunks[..i + 1], dest, translator))
         == Concat(Outputs(chunks[..i], dest, translator)) + translator(chunks[i], dest).value
  {
    assert chunks[..i + 1] == chunks[..i] + [chunks[i]];
    var after := Outputs(chunks[..i + 1], dest, translator);
    assert after[..i] == Outputs(chunks[..i], dest, translator);
  }

  /** A raising call right after a run of successful ones is the first failure. */
  lemma FailureAt(chunks: seq<string>, dest: string, translator: Translator, i: nat)
    requires i < |chunks|
    requires AllTranslated(chunks[..i], dest, translator)
    requires translator(chunks[i], dest).None?
    ensures !AllTranslated(chunks, dest, translator)
    ensures FirstFailure(chunks, dest, translator) == i
  {
    forall j | 0 <= j < i ensures translator(chunks[j], dest).Some? {
      assert chunks[..i][j] == chunks[j];
    }
  }

  /** The endpoint's loop over the chunk list: `calls` lists, in order, the
      translator calls it makes. */
  method TranslateChunks(chunks: seq<string>, dest: string, translator: Translator)
    returns (reply: string, calls: seq<TranslatorCall>)
    ensures |calls| <= |chunks|
    // every call goes to `dest`, on the chunks in order
    ensures forall j :: 0 <= j < |calls| ==> calls[j] == TranslatorCall(chunks[j], dest)
    // success: one call per chunk, outputs joined in order
    ensures AllTranslated(chunks, dest, translator) ==>
      |calls| == |chunks| && reply == Concat(Outputs(chunks, dest, translator))
    // failure: stop at the first raising call, discard partial output
    ensures !AllTranslated(chunks, dest, translator) ==>
      |calls| == FirstFailure(chunks, dest, translator) + 1 && reply == TRANSLATION_FAILED
  {
    var translated := "";
    calls := [];
    var i := 0;
    while i < |chunks|
      invariant 0 <= i <= |chunks|
      invariant |calls| == i
      invariant forall j :: 0 <= j < i ==> calls[j] == TranslatorCall(chunks[j], dest)
      invariant AllTranslated(chunks[..i], dest, translator)
      invariant translated == Concat(Outputs(chunks[..i], dest, translator))
    {
      var out := translator(chunks[i], dest);
      calls := calls + [TranslatorCall(chunks[i], dest)];
      if out.None? {
        FailureAt(chunks, dest, translator, i);
        reply := TRANSLATION_FAILED;
        return;
      }
      TranslatedStep(chunks, dest, translator, i);
      translated := translated + out.value;
      i := i + 1;
    }
    assert chunks[..i] == chunks;
    reply := translated;
  }

  /** The `/translate` endpoint: chunk the text, translate every chunk into
      the request's target language, reply with the joined outputs. */
  method Translate(request: TranslationRequest, translator: Translator)
    returns (reply: string, calls: seq<TranslatorCall>)
    ensures |calls| <= |Chunks(request.text)|
    ensures forall j :: 0 <= j < |calls| ==>
      calls[j] == TranslatorCall(Chunks(request.text)[j], request.targetLang)
    ensures AllTranslated(Chunks(request.text), request.targetLang, translator) ==>
      && |calls| == |Chunks(request.text)|
      && reply == Concat(Outputs(Chunks(request.text), request.targetLang, translator))
    ensures !AllTranslated(Chunks(request.text), request.targetLang, translator) ==>
      && |calls| == FirstFailure(Chunks(request.text), request.targetLang, translator) + 1
      && reply == TRANSLATION_FAILED
    ensures request.text == "" ==> reply == "" && calls == []
  {
    reply, calls := TranslateChunks(Chunks(request.text), request.targetLang, translator);
  }

  /** With a translator that returns every slice unchanged, the reply is the
      request text itself: no character is lost or repeated at the chunk seams. */
  lemma {:induction false} IdentityTranslationRoundTrip(text: string, dest: string, translator: Translator)
    requires forall s :: translator(s, dest) == Some(s)
    ensures AllTranslated(Chunks(text), dest, translator)
    ensures Concat(Outputs(Chunks(text), dest, translator)) == text
  {
    var chunks := Chunks(text);
    assert Outputs(chunks, dest, translator) == chunks;
    ChunksRoundTrip(text);
  }
}
