/** The two messages of the bridge's protocol with the external tool: the
    import request the bridge posts, and the dressed-avatar response the tool
    sends back, with the response's case-insensitive type classification. */
module Messages {
  import opened Wrappers
  import opened Json
  import Text

  // ---------------------------------------------------------------------------
  // Request

  datatype ImportAvatarRequest = ImportAvatarRequest(filePath: string, sourceName: string)

  /** `FImportAvatarRequest::ToJson`: an object with exactly the members
      `filePath` and `sourceName`, in that order, carrying the record's values. */
  function ToJson(request: ImportAvatarRequest): (j: JValue)
    ensures j.JObject?
    ensures Keys(j.members) == ["filePath", "sourceName"]
    ensures TryGetStringField(j.members, "filePath") == Some(request.filePath)
    ensures TryGetStringField(j.members, "sourceName") == Some(request.sourceName)
  {
    var members := [Member("filePath", JString(request.filePath)), Member("sourceName", JString(request.sourceName))];
    assert !KeyMatches(members[1], "filePath");
    assert !KeyMatches(members[0], "sourceName");
    JObject(members)
  }

  /** How the receiving side reads a request object back: both members must be
      strings. */
  function RequestFromJson(j: JValue): Option<ImportAvatarRequest> {
    match j
    case JObject(ms) =>
      var path := TryGetStringField(ms, "filePath");
      var source := TryGetStringField(ms, "sourceName");
      if path.Some? && source.Some? then Some(ImportAvatarRequest(path.value, source.value)) else None
    case _ => None
  }

  /** Serialising a request and reading it back recovers it. */
  lemma RequestRoundTrip(request: ImportAvatarRequest)
    ensures RequestFromJson(ToJson(request)) == Some(request)
  {
  }

  // ---------------------------------------------------------------------------
  // Response

  datatype DressedAvatarResponse = DressedAvatarResponse(
    modelPath: string,
    metaTailorVersion: string,
    dataType: string)

  /** A default-constructed response: every field empty. */
  const DefaultResponse := DressedAvatarResponse("", "", "")

  datatype ResponseType = Unknown | Outfit | Avatar

  /** `FDressedAvatarResponse::ParseType`. */
  function ParseType(response: DressedAvatarResponse): (t: ResponseType)
    ensures t == Outfit <==> Text.EqualsIgnoreCase(response.dataType, "Outfit")
    ensures t == Avatar <==> Text.EqualsIgnoreCase(response.dataType, "Avatar")
  {
    var d := response.dataType;
    OutfitIsNotAvatar(d);
    if Text.EqualsIgnoreCase(d, "Outfit") then Outfit
    else if Text.EqualsIgnoreCase(d, "Avatar") then Avatar
    else
      Unknown
  }

  /** No string names both types. */
  lemma OutfitIsNotAvatar(d: string)
    ensures !(Text.EqualsIgnoreCase(d, "Outfit") && Text.EqualsIgnoreCase(d, "Avatar"))
  {
    if Text.EqualsIgnoreCase(d, "Outfit") {
      assert Text.LowerChar(d[0]) == 'o' != Text.LowerChar("Avatar"[0]);
    }
  }

  /** An independent statement of the classification: lower-case the type
      string and compare it with the lower-case names. */
  lemma ParseTypeByLowering(response: DressedAvatarResponse)
    ensures ParseType(response) ==
      (if Text.Lower(response.dataType) == "outfit" then Outfit
       else if Text.Lower(response.dataType) == "avatar" then Avatar
       else Unknown)
  {
    Text.EqualsIgnoreCaseIffLowerEqual(response.dataType, "Outfit");
    Text.EqualsIgnoreCaseIffLowerEqual(response.dataType, "Avatar");
    assert Text.Lower("Outfit") == "outfit";
    assert Text.Lower("Avatar") == "avatar";
  }

  /** Any casing of the two names is recognised. */
  lemma ParseTypeIgnoresCase()
    ensures ParseType(DressedAvatarResponse("", "", "outfit")) == Outfit
    ensures ParseType(DressedAvatarResponse("", "", "OUTFIT")) == Outfit
    ensures ParseType(DressedAvatarResponse("", "", "aVaTaR")) == Avatar
  {
    assert Text.EqualsIgnoreCase("outfit", "Outfit");
    assert Text.EqualsIgnoreCase("OUTFIT", "Outfit");
    assert Text.EqualsIgnoreCase("aVaTaR", "Avatar");
  }

  /** The comparison is on the whole string: near misses and the empty type
      of a default response are Unknown. */
  lemma ParseTypeUnknownExamples()
    ensures ParseType(DressedAvatarResponse("", "", "Outfits")) == Unknown
    ensures ParseType(DressedAvatarResponse("", "", "Avatar ")) == Unknown
    ensures ParseType(DefaultResponse) == Unknown
  {
  }

  /** `FDressedAvatarResponse::FromJson` applied to a freshly constructed
      response: None (the source's `false`) for an invalid object or when
      `ModelPath` or `DataType` is not a string member; `MetaTailorVersion` is
      optional and stays empty when absent. */
  function FromJson(json: Option<seq<Member>>): (r: Option<DressedAvatarResponse>)
    ensures r.Some? <==>
      json.Some? && TryGetStringField(json.value, "ModelPath").Some? && TryGetStringField(json.value, "DataType").Some?
    ensures r.Some? ==> r.value.modelPath == TryGetStringField(json.value, "ModelPath").value
    ensures r.Some? ==> r.value.dataType == TryGetStringField(json.value, "DataType").value
    ensures r.Some? ==> r.value.metaTailorVersion == TryGetStringField(json.value, "MetaTailorVersion").GetOr("")
  {
    if json.None? then None
    else
      var ms := json.value;
      var modelPath := TryGetStringField(ms, "ModelPath");
      if modelPath.None? then None
      else
        var version := TryGetStringField(ms, "MetaTailorVersion").GetOr(DefaultResponse.metaTailorVersion);
        var dataType := TryGetStringField(ms, "DataType");
        if dataType.None? then None
        else Some(DressedAvatarResponse(modelPath.value, version, dataType.value))
  }

  /** The object the external tool sends for a response, version included. */
  function ResponseToJson(response: DressedAvatarResponse): JValue {
    JObject([
      Member("ModelPath", JString(response.modelPath)),
      Member("MetaTailorVersion", JString(response.metaTailorVersion)),
      Member("DataType", JString(response.dataType))])
  }

  /** Decoding what the tool encodes recovers the response. */
  lemma ResponseRoundTrip(response: DressedAvatarResponse)
    ensures FromJson(Some(AsObject(ResponseToJson(response)))) == Some(response)
  {
    var ms := ResponseToJson(response).members;
    assert KeyMatches(ms[0], "ModelPath") && KeyMatches(ms[1], "MetaTailorVersion") && KeyMatches(ms[2], "DataType");
    assert !KeyMatches(ms[1], "ModelPath") && !KeyMatches(ms[2], "ModelPath");
    assert !KeyMatches(ms[2], "MetaTailorVersion");
  }

  /** Decoding fails closed: an object carrying only a type is rejected, not
      filled with an empty path. */
  lemma FromJsonRejectsMissingPath()
    ensures FromJson(Some([Member("DataType", JString("Outfit"))])) == None
  {
    assert !KeyMatches(Member("DataType", JString("Outfit")), "ModelPath");
  }
}
