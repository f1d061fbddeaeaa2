/** The image-generation client: clamp the requested count, take a key from
    the key manager, call the provider with it, and report the outcome back
    to the manager. The provider is the placeholder the server ships, which
    answers with fixed one-pixel PNGs; whether a call throws is an input, as
    are the clock readings, the request id and the configured model. */
module GeminiClient {
  import opened Wrappers
  import opened Api
  import Text
  import KeyManager

  /** A one-pixel white PNG, in base64, and its decoded length. */
  const ONE_PIXEL_PNG: string := "iVBORw0KGgoAAAANSUhEUgAAAAEAAAABCAQAAAC1HAwCAAAAC0lEQVR42mP8Xw8AAn0B9nAcYp8AAAAASUVORK5CYII="
  const ONE_PIXEL_PNG_BYTES: nat := 68

  datatype GeneratedImage = GeneratedImage(
    id: string, mime: string, dataBase64: Option<string>, url: Option<string>, sizeBytes: Option<nat>)

  datatype GenerateResult = GenerateResult(requestId: string, model: string, images: seq<GeneratedImage>)

  /** What a failed provider call throws: the members the catch block reads. */
  datatype ProviderError = ProviderError(status: Option<int>, code: Option<int>, message: Option<string>)

  /** Whether the provider call returns or throws. */
  datatype ProviderCall = Returns | Throws(err: ProviderError)

  /** `Math.min(params.n || 1, GEMINI_MAX_IMAGES)`: an absent or zero count
      means one image. */
  function ImageCount(n: Option<int>, maxImages: int): (c: int)
    ensures c <= maxImages
    ensures n.Some? && n.value != 0 && n.value <= maxImages ==> c == n.value
    ensures n.Some? && n.value != 0 && n.value > maxImages ==> c == maxImages
    ensures (n.None? || n.value == 0) && 1 <= maxImages ==> c == 1
    ensures (n.None? || n.value == 0) && 1 > maxImages ==> c == maxImages
    ensures 1 <= maxImages && n.Some? && n.value >= 1 ==> 1 <= c
  {
    var wanted := if n.Some? && n.value != 0 then n.value else 1;
    if wanted <= maxImages then wanted else maxImages
  }

  /** `callGemini`: `n` images (none for a count below one), numbered from 0,
      each a PNG of the fixed pixel stamped with the clock reading `clock(i)`
      taken while building image `i`. */
  function Placeholder(clock: nat -> nat, n: int): (images: seq<GeneratedImage>)
    ensures |images| == (if n < 0 then 0 else n)
    ensures forall i :: 0 <= i < |images| ==>
      images[i].id == Text.NatToString(clock(i)) + "_" + Text.NatToString(i)
      && images[i].mime == "image/png"
      && images[i].dataBase64 == Some(ONE_PIXEL_PNG)
      && images[i].sizeBytes == Some(ONE_PIXEL_PNG_BYTES)
  {
    var count := if n < 0 then 0 else n;
    seq(count, i requires 0 <= i < count =>
      GeneratedImage(Text.NatToString(clock(i)) + "_" + Text.NatToString(i), "image/png",
                     Some(ONE_PIXEL_PNG), None, Some(ONE_PIXEL_PNG_BYTES)))
  }

  /** The image ids of one call are all different. */
  lemma PlaceholderIdsDistinct(clock: nat -> nat, n: int, i: nat, j: nat)
    requires i < j < |Placeholder(clock, n)|
    ensures Placeholder(clock, n)[i].id != Placeholder(clock, n)[j].id
  {
    var a := Text.NatToString(i);
    var b := Text.NatToString(j);
    Text.NatToStringInjective(i, j);
    Text.SplitAtMark(Text.NatToString(clock(i)), a, Text.NatToString(clock(j)), b, '_');
  }

  /** `err.status || err.code`. */
  function StatusOrCode(e: ProviderError): Option<int> {
    if e.status.Some? && e.status.value != 0 then e.status else e.code
  }

  /** Authentication and authorisation failures are severe. */
  predicate Severe(e: ProviderError) {
    StatusOrCode(e) == Some(401) || StatusOrCode(e) == Some(403)
  }

  /** `mapGeminiError`. */
  function MapGeminiError(e: ProviderError): (r: ApiError)
    ensures !r.success && r.error.kind == GEMINI_ERROR
    ensures Text.Truthy(e.message) ==> r.error.message == e.message.value
    ensures !Text.Truthy(e.message) ==> r.error.message == "Gemini request failed"
  {
    Fail(Text.OrElse(e.message, "Gemini request failed"), GEMINI_ERROR)
  }

  const KEYS_EXHAUSTED: ApiError := Fail("All provider keys unavailable", PROVIDER_KEYS_EXHAUSTED)

  /** What a call of `generateImages` answers and leaves in the manager. */
  datatype Generated = Generated(result: Result<GenerateResult, ApiError>, states: seq<KeyManager.KeyState>, rrPointer: nat)

  /** `generateImages` on the manager state (`s`, `ptr`). The key is picked
      at `now`; a failure is reported at `finishedAt`. */
  function Generate(s: seq<KeyManager.KeyState>, ptr: nat, n: Option<int>, maxImages: int, now: int,
                    call: ProviderCall, clock: nat -> nat, requestId: string, model: string, finishedAt: int): Generated
  {
    var count := ImageCount(n, maxImages);
    var p := KeyManager.Pick(s, ptr, now);
    if p.index.None? then Generated(Failure(KEYS_EXHAUSTED), p.states, p.rrPointer)
    else
      var key := p.states[p.index.value].key;
      match call
      case Returns =>
        Generated(Success(GenerateResult(requestId, model, Placeholder(clock, count))),
                  KeyManager.SuccessStep(p.states, key), p.rrPointer)
      case Throws(e) =>
        Generated(Failure(MapGeminiError(e)), KeyManager.ErrorStep(p.states, key, Severe(e), finishedAt), p.rrPointer)
  }

  /** `generateImages`, against the key manager object. */
  method GenerateImages(km: KeyManager.Manager, n: Option<int>, maxImages: int, now: int,
                        call: ProviderCall, clock: nat -> nat, requestId: string, model: string, finishedAt: int)
    returns (r: Result<GenerateResult, ApiError>)
    requires km.Valid()
    modifies km, km.states
    ensures km.Valid() && km.states == old(km.states)
    ensures var g := Generate(old(km.states[..]), old(km.rrPointer), n, maxImages, now, call, clock, requestId, model, finishedAt);
      r == g.result && km.states[..] == g.states && km.rrPointer == g.rrPointer
  {
    var count := ImageCount(n, maxImages);
    var keyState := km.PickKey(now);
    if keyState.None? {
      return Failure(KEYS_EXHAUSTED);
    }
    var key := keyState.value.key;
    match call {
      case Returns =>
        var images := Placeholder(clock, count);
        km.ReportSuccess(key);
        r := Success(GenerateResult(requestId, model, images));
      case Throws(e) =>
        km.ReportError(key, Severe(e), finishedAt);
        r := Failure(MapGeminiError(e));
    }
  }

  // ------------------------------------------------------------ properties

  /** With every key cooling down the call fails with PROVIDER_KEYS_EXHAUSTED
      and leaves the manager exactly as it was: nothing is reported. */
  lemma ExhaustedChangesNothing(s: seq<KeyManager.KeyState>, ptr: nat, n: Option<int>, maxImages: int, now: int,
                                call: ProviderCall, clock: nat -> nat, requestId: string, model: string, finishedAt: int)
    requires ptr <= |s|
    requires forall i :: 0 <= i < |s| ==> KeyManager.CoolingDown(s[i], now)
    ensures Generate(s, ptr, n, maxImages, now, call, clock, requestId, model, finishedAt)
         == Generated(Failure(KEYS_EXHAUSTED), s, ptr)
  {
    KeyManager.PickNoneIff(s, ptr, now);
  }

  /** A provider success returns the requested number of images, capped by
      the configured maximum, and clears the failure count of the key used. */
  lemma SuccessReportsKey(s: seq<KeyManager.KeyState>, ptr: nat, n: Option<int>, maxImages: int, now: int,
                          clock: nat -> nat, requestId: string, model: string, finishedAt: int)
    requires KeyManager.Pick(s, ptr, now).index.Some?
    ensures var p := KeyManager.Pick(s, ptr, now);
      var key := p.states[p.index.value].key;
      var g := Generate(s, ptr, n, maxImages, now, Returns, clock, requestId, model, finishedAt);
      g.result.Success?
      && |g.result.value.images| == (if ImageCount(n, maxImages) < 0 then 0 else ImageCount(n, maxImages))
      && g.states == KeyManager.SuccessStep(p.states, key)
      && (var i := KeyManager.Find(p.states, key).value;
          g.states[i].consecutiveErrors == 0 && g.states[i].healthy)
  {
  }

  /** A provider failure is reported once against the key used, severe
      exactly for 401 and 403, and surfaces as GEMINI_ERROR. A severe failure
      quarantines that key until `finishedAt + COOLDOWN_MS`. */
  lemma FailureReportsKey(s: seq<KeyManager.KeyState>, ptr: nat, n: Option<int>, maxImages: int, now: int,
                          e: ProviderError, clock: nat -> nat, requestId: string, model: string, finishedAt: int)
    requires KeyManager.Pick(s, ptr, now).index.Some?
    ensures var p := KeyManager.Pick(s, ptr, now);
      var key := p.states[p.index.value].key;
      var g := Generate(s, ptr, n, maxImages, now, Throws(e), clock, requestId, model, finishedAt);
      g.result == Failure(MapGeminiError(e))
      && g.states == KeyManager.ErrorStep(p.states, key, Severe(e), finishedAt)
      && g.rrPointer == p.rrPointer
      && (Severe(e) ==>
            var i := KeyManager.Find(p.states, key).value;
            !g.states[i].healthy && g.states[i].cooldownUntil == Some(finishedAt + KeyManager.COOLDOWN_MS))
  {
    var p := KeyManager.Pick(s, ptr, now);
    var key := p.states[p.index.value].key;
    if Severe(e) {
      KeyManager.ErrorStepEffect(p.states, key, true, finishedAt);
    }
  }

  /** The status of a provider failure decides what happens to the record of
      the key used (the first record carrying that key, as `reportError`
      finds it). 401 or 403 in `status`, or in `code` when `status` is
      absent or zero, quarantines it at once; any other failure only counts
      towards the third strike, so below it the record keeps its health and
      deadline. */
  lemma FailureStatusDecidesQuarantine(s: seq<KeyManager.KeyState>, ptr: nat, n: Option<int>, maxImages: int, now: int,
                                       e: ProviderError, clock: nat -> nat, requestId: string, model: string, finishedAt: int)
    requires KeyManager.Pick(s, ptr, now).index.Some?
    ensures var p := KeyManager.Pick(s, ptr, now);
      var i := KeyManager.Find(p.states, p.states[p.index.value].key).value;
      var g := Generate(s, ptr, n, maxImages, now, Throws(e), clock, requestId, model, finishedAt);
      var authFailure := if e.status.Some? && e.status.value != 0 then e.status.value in {401, 403}
                         else e.code.Some? && e.code.value in {401, 403};
      i < |g.states| && i < |p.states|
      && (authFailure ==> !g.states[i].healthy && g.states[i].cooldownUntil == Some(finishedAt + KeyManager.COOLDOWN_MS))
      && (!authFailure && p.states[i].consecutiveErrors + 1 < KeyManager.ERROR_THRESHOLD ==>
            g.states[i].healthy == p.states[i].healthy && g.states[i].cooldownUntil == p.states[i].cooldownUntil)
  {
    var p := KeyManager.Pick(s, ptr, now);
    var key := p.states[p.index.value].key;
    KeyManager.ErrorStepEffect(p.states, key, Severe(e), finishedAt);
  }
}
