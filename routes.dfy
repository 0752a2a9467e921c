/**
 * The two pieces of request handling in the service-order routes that are more than
 * plumbing: the media-type check of a PATCH request, and the list-filter map built from the
 * query parameters.
 */
module Routes {
  import opened Wrappers
  import opened Text

  const MERGE_PATCH_MEDIA_TYPE: string := "application/merge-patch+json"
  const JSON_PATCH_MEDIA_TYPE: string := "application/json-patch+json"

  /** The media type of a `Content-Type` value: the text before the first `;`, trimmed, lower-cased. */
  function MediaType(contentType: string): string {
    Lower(Strip(Split(contentType, ';')[0]))
  }

  /** A media type holds no parameter, no padding and no upper-case letter. */
  lemma MediaTypeClean(contentType: string)
    ensures var m := MediaType(contentType);
      && ';' !in m && Lower(m) == m
      && (m == "" || (!IsSpace(m[0]) && !IsSpace(m[|m| - 1])))
  {
    var first := Split(contentType, ';')[0];
    StrippedParts(first, ';');
    LowerIdempotent(Strip(first));
  }

  /** A media type is its own media type. */
  lemma MediaTypeIdempotent(contentType: string)
    ensures MediaType(MediaType(contentType)) == MediaType(contentType)
  {
    MediaTypeClean(contentType);
    PlainMediaType(MediaType(contentType));
  }

  /**
   * `_validate_patch_content_type`: only a merge-patch body is accepted; a missing header, a
   * JSON Patch body (RFC 6902) and every other media type are each refused with their own
   * reason.
   */
  function ValidatePatchContentType(contentType: Option<string>): (r: Outcome)
    ensures r.Pass? <==> contentType.Some? && MediaType(contentType.value) == MERGE_PATCH_MEDIA_TYPE
    ensures contentType.None? ==> r == Fail(UnsupportedMediaType(MissingContentType))
    ensures contentType.Some? && MediaType(contentType.value) == JSON_PATCH_MEDIA_TYPE ==>
      r == Fail(UnsupportedMediaType(JsonPatchNotEnabled))
    ensures contentType.Some? && MediaType(contentType.value) !in {MERGE_PATCH_MEDIA_TYPE, JSON_PATCH_MEDIA_TYPE} ==>
      r == Fail(UnsupportedMediaType(NotMergePatch))
  {
    match contentType
    case None => Fail(UnsupportedMediaType(MissingContentType))
    case Some(ct) =>
      var mediaType := MediaType(ct);
      if mediaType == MERGE_PATCH_MEDIA_TYPE then Pass
      else if mediaType == JSON_PATCH_MEDIA_TYPE then Fail(UnsupportedMediaType(JsonPatchNotEnabled))
      else Fail(UnsupportedMediaType(NotMergePatch))
  }

  /** Parameters after the media type, such as a charset, do not change it. */
  lemma ParametersIgnored(mediaType: string, parameters: string)
    requires ';' !in mediaType
    ensures MediaType(mediaType + ";" + parameters) == MediaType(mediaType)
  {
    assert mediaType + ";" + parameters == mediaType + [';'] + parameters;
    SplitPrefix(mediaType, parameters, ';');
    SplitPiece(mediaType, ';');
  }

  /** Letter case does not change the media type. */
  lemma CaseIgnored(contentType: string)
    ensures MediaType(Lower(contentType)) == MediaType(contentType)
  {
    var first := Split(contentType, ';')[0];
    SplitFirstLower(contentType, ';');
    StripLower(first);
    LowerIdempotent(Strip(first));
  }

  /** Two header values that differ only in letter case are judged alike. */
  lemma CaseInsensitive(a: string, b: string)
    requires Lower(a) == Lower(b)
    ensures ValidatePatchContentType(Some(a)) == ValidatePatchContentType(Some(b))
  {
    CaseIgnored(a);
    CaseIgnored(b);
  }

  /** An accepted header value stays accepted with any parameters after it. */
  lemma AcceptedWithParameters(contentType: string, parameters: string)
    requires ';' !in contentType && ValidatePatchContentType(Some(contentType)) == Pass
    ensures ValidatePatchContentType(Some(contentType + ";" + parameters)) == Pass
  {
    ParametersIgnored(contentType, parameters);
  }

  /** A lower-case media type without parameters or padding is its own media type. */
  lemma PlainMediaType(m: string)
    requires ';' !in m && Lower(m) == m
    requires m == "" || (!IsSpace(m[0]) && !IsSpace(m[|m| - 1]))
    ensures MediaType(m) == m
  {
    SplitPiece(m, ';');
    StripUnpadded(m);
  }

  /** The list filters: every query parameter except `fields`. */
  function FilterParams(params: map<string, string>): (r: map<string, string>)
    ensures forall k :: k in r <==> k in params && k != "fields"
    ensures forall k | k in r :: r[k] == params[k]
  {
    map k | k in params && k != "fields" :: params[k]
  }
}
