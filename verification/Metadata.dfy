/** The material metadata that travels beside an exported or imported model:
    one entry per mesh, listing its materials' texture names, scalar values
    and tint. `FMetaTailorMetadata::FromJson` reads it leniently: an entry that
    is not an object reads as an empty object, a mesh without a `Materials`
    array is dropped, and every missing field keeps its default. The writer
    functions below put each field under its own name; the round-trip lemmas
    read what they write back.

    Floating-point numbers are reals; the narrowing of doubles to floats is
    not modelled. */
module Metadata {
  import opened Wrappers
  import opened Json
  import Text

  /** `FMetaTailorLinearColor`. */
  datatype Color = Color(r: real, g: real, b: real, a: real)

  const White := Color(1.0, 1.0, 1.0, 1.0)

  /** `FMetaTailorMaterialInfo`. */
  datatype MaterialInfo = MaterialInfo(
    name: string,
    albedoName: string,
    normalName: string,
    roughnessName: string,
    metallicName: string,
    occlusionName: string,
    emissiveName: string,
    opacityName: string,
    smoothness: real,
    metallic: real,
    tint: Color)

  /** A default-constructed material: no names, smoothness one half, not
      metallic, white. */
  const DefaultMaterial := MaterialInfo("", "", "", "", "", "", "", "", 0.5, 0.0, White)

  /** `FMetaTailorMeshInfo`. */
  datatype MeshInfo = MeshInfo(meshName: string, materials: seq<MaterialInfo>)

  /** `FMetaTailorMetadata`. */
  datatype Metadata = Metadata(version: string, meshes: seq<MeshInfo>)

  const EmptyMetadata := Metadata("", [])

  // ---------------------------------------------------------------------------
  // Lenient lists

  /** The entries of a JSON array that decode, in array order; the others are
      skipped. */
  function Collect<T>(items: seq<JValue>, decode: JValue -> Option<T>): (r: seq<T>)
    ensures |r| <= |items|
    ensures |items| == 1 ==> r == (if decode(items[0]).Some? then [decode(items[0]).value] else [])
  {
    if |items| == 0 then []
    else
      var head := if decode(items[0]).Some? then [decode(items[0]).value] else [];
      head + Collect(items[1..], decode)
  }

  /** Collecting a concatenation collects each part in turn, so surviving
      entries keep their relative order. */
  lemma {:induction false} CollectAppend<T>(a: seq<JValue>, b: seq<JValue>, decode: JValue -> Option<T>)
    ensures Collect(a + b, decode) == Collect(a, decode) + Collect(b, decode)
    decreases |a|
  {
    if |a| == 0 {
      assert a + b == b;
    } else {
      var ab := a + b;
      assert ab[0] == a[0];
      assert ab[1..] == a[1..] + b;
      var head := if decode(a[0]).Some? then [decode(a[0]).value] else [];
      calc {
        Collect(ab, decode);
        head + Collect(a[1..] + b, decode);
        { CollectAppend(a[1..], b, decode); }
        head + (Collect(a[1..], decode) + Collect(b, decode));
        (head + Collect(a[1..], decode)) + Collect(b, decode);
        Collect(a, decode) + Collect(b, decode);
      }
    }
  }

  /** Collecting entries that all decode loses none of them. */
  lemma {:induction false} CollectAll<T>(items: seq<JValue>, decode: JValue -> Option<T>)
    requires forall i :: 0 <= i < |items| ==> decode(items[i]).Some?
    ensures |Collect(items, decode)| == |items|
    ensures forall i :: 0 <= i < |items| ==> Collect(items, decode)[i] == decode(items[i]).value
    decreases |items|
  {
    if |items| > 0 {
      CollectAll(items[1..], decode);
    }
  }

  // ---------------------------------------------------------------------------
  // Reading

  function StringOr(members: seq<Member>, key: string, default: string): string {
    TryGetStringField(members, key).GetOr(default)
  }

  function NumberOr(members: seq<Member>, key: string, default: real): real {
    TryGetNumberField(members, key).GetOr(default)
  }

  /** The tint of a material: white without a `Tint` object; inside one, a
      missing channel is 0 and a missing alpha 1. */
  function DecodeTint(tint: Option<seq<Member>>): (c: Color)
    ensures tint.None? ==> c == White
    ensures tint.Some? ==> c.r == NumberOr(tint.value, "r", 0.0) && c.g == NumberOr(tint.value, "g", 0.0)
    ensures tint.Some? ==> c.b == NumberOr(tint.value, "b", 0.0) && c.a == NumberOr(tint.value, "a", 1.0)
  {
    if tint.None? then White
    else
      var ms := tint.value;
      Color(NumberOr(ms, "r", 0.0), NumberOr(ms, "g", 0.0), NumberOr(ms, "b", 0.0), NumberOr(ms, "a", 1.0))
  }

  /** An empty `Tint` object is opaque black, not white. */
  lemma EmptyTintIsBlack()
    ensures DecodeTint(Some([])) == Color(0.0, 0.0, 0.0, 1.0)
    ensures DecodeTint(None) == White
  {
  }

  /** One material object. The opacity name is not read: it only travels
      from the editor to the tool. */
  function DecodeMaterial(ms: seq<Member>): (m: MaterialInfo)
    ensures m.opacityName == ""
    ensures m.name == StringOr(ms, "Name", "") && m.albedoName == StringOr(ms, "AlbedoName", "")
    ensures m.normalName == StringOr(ms, "NormalName", "") && m.roughnessName == StringOr(ms, "RoughnessName", "")
    ensures m.metallicName == StringOr(ms, "MetallicName", "") && m.occlusionName == StringOr(ms, "OcclusionName", "")
    ensures m.emissiveName == StringOr(ms, "EmissiveName", "")
    ensures m.smoothness == NumberOr(ms, "SmoothnessValue", 0.5) && m.metallic == NumberOr(ms, "MetallicValue", 0.0)
    ensures m.tint == DecodeTint(TryGetObjectField(ms, "Tint"))
  {
    MaterialInfo(
      StringOr(ms, "Name", ""),
      StringOr(ms, "AlbedoName", ""),
      StringOr(ms, "NormalName", ""),
      StringOr(ms, "RoughnessName", ""),
      StringOr(ms, "MetallicName", ""),
      StringOr(ms, "OcclusionName", ""),
      StringOr(ms, "EmissiveName", ""),
      DefaultMaterial.opacityName,
      NumberOr(ms, "SmoothnessValue", DefaultMaterial.smoothness),
      NumberOr(ms, "MetallicValue", DefaultMaterial.metallic),
      DecodeTint(TryGetObjectField(ms, "Tint")))
  }

  /** An empty material object reads as a default-constructed material. */
  lemma EmptyMaterialIsDefault()
    ensures DecodeMaterial([]) == DefaultMaterial
  {
  }

  /** A material array entry. `AsObject` never yields an invalid pointer,
      so no entry is skipped: anything but an object reads as the empty
      object, that is, as a default-constructed material. */
  function MaterialEntry(v: JValue): (r: Option<MaterialInfo>)
    ensures r.Some?
    ensures v.JObject? ==> r.value == DecodeMaterial(v.members)
    ensures !v.JObject? ==> r.value == DefaultMaterial
  {
    Some(DecodeMaterial(AsObject(v)))
  }

  /** Every material entry yields one material, in array order, so the
      position of a material in the metadata is its position in the
      document. */
  lemma MaterialsKeepPositions(items: seq<JValue>)
    ensures |Collect(items, MaterialEntry)| == |items|
    ensures forall i :: 0 <= i < |items| ==> Collect(items, MaterialEntry)[i] == MaterialEntry(items[i]).value
  {
    CollectAll(items, MaterialEntry);
  }

  /** One mesh object, or None when it has no `Materials` array. */
  function DecodeMesh(ms: seq<Member>): (r: Option<MeshInfo>)
    ensures r.Some? <==> TryGetArrayField(ms, "Materials").Some?
    ensures r.Some? ==> r.value.meshName == StringOr(ms, "MeshName", "")
    ensures r.Some? ==> r.value.materials == Collect(TryGetArrayField(ms, "Materials").value, MaterialEntry)
  {
    var materials := TryGetArrayField(ms, "Materials");
    if materials.None? then None
    else Some(MeshInfo(StringOr(ms, "MeshName", ""), Collect(materials.value, MaterialEntry)))
  }

  /** A mesh array entry: meshes without a `Materials` array are dropped,
      and so is anything but an object, which reads as the empty object. */
  function MeshEntry(v: JValue): (r: Option<MeshInfo>)
    ensures r.Some? <==> v.JObject? && TryGetArrayField(v.members, "Materials").Some?
  {
    DecodeMesh(AsObject(v))
  }

  /** The outcome of `FromJson`: its boolean, and the metadata as the call
      leaves it. */
  datatype Decoded = Decoded(ok: bool, metadata: Metadata)

  /** `FMetaTailorMetadata::FromJson` on `prior`, given what the JSON reader
      made of the text (None when it did not parse). It fails unless the root
      is an object with a `MeshMaterials` array; the version is read before
      that check, so a failure can still leave it changed. Decoded meshes are
      appended to the ones already there. */
  function MetadataFromJson(parsed: Option<JValue>, prior: Metadata): (d: Decoded)
    ensures d.ok <==> parsed.Some? && parsed.value.JObject? && TryGetArrayField(parsed.value.members, "MeshMaterials").Some?
    ensures !(parsed.Some? && parsed.value.JObject?) ==> d.metadata == prior
    ensures parsed.Some? && parsed.value.JObject? ==>
      d.metadata.version == StringOr(parsed.value.members, "MetaTailorVersion", prior.version)
    ensures d.ok ==> d.metadata.meshes == prior.meshes + Collect(TryGetArrayField(parsed.value.members, "MeshMaterials").value, MeshEntry)
    ensures !d.ok ==> d.metadata.meshes == prior.meshes
  {
    if parsed.None? || !parsed.value.JObject? then Decoded(false, prior)
    else
      var root := parsed.value.members;
      var versioned := prior.(version := StringOr(root, "MetaTailorVersion", prior.version));
      var meshes := TryGetArrayField(root, "MeshMaterials");
      if meshes.None? then Decoded(false, versioned)
      else Decoded(true, versioned.(meshes := prior.meshes + Collect(meshes.value, MeshEntry)))
  }

  /** A document without a `MeshMaterials` array fails, yet its version has
      been taken. */
  lemma VersionSurvivesFailure(version: string)
    ensures var d := MetadataFromJson(Some(JObject([Member("MetaTailorVersion", JString(version))])), EmptyMetadata);
      !d.ok && d.metadata == Metadata(version, [])
  {
    var m := Member("MetaTailorVersion", JString(version));
    assert KeyMatches(m, "MetaTailorVersion");
    assert !KeyMatches(m, "MeshMaterials");
  }

  /** Malformed entries do not disturb the others: a mesh array with a
      non-object and a mesh without materials between two good meshes reads
      as the two good meshes, in order. */
  lemma {:induction false} MalformedEntriesSkipped(before: JValue, after: JValue, junk: JValue, nameOnly: seq<Member>)
    requires MeshEntry(before).Some? && MeshEntry(after).Some?
    requires !junk.JObject?
    requires TryGetArrayField(nameOnly, "Materials").None?
    ensures Collect([before, junk, JObject(nameOnly), after], MeshEntry) == [MeshEntry(before).value, MeshEntry(after).value]
  {
    CollectFour(before, junk, JObject(nameOnly), after, MeshEntry);
    assert Collect([junk], MeshEntry) == [] by {
      assert AsObject(junk) == [];
    }
    assert Collect([JObject(nameOnly)], MeshEntry) == [];
  }

  /** Collecting four entries collects each in turn. */
  lemma CollectFour<T>(w: JValue, x: JValue, y: JValue, z: JValue, decode: JValue -> Option<T>)
    ensures Collect([w, x, y, z], decode) == Collect([w], decode) + Collect([x], decode) + Collect([y], decode) + Collect([z], decode)
  {
    assert [w, x, y, z] == [w] + [x] + [y] + [z];
    CollectAppend([w] + [x] + [y], [z], decode);
    CollectAppend([w] + [x], [y], decode);
    CollectAppend([w], [x], decode);
  }

  /** A material entry that is not an object is not skipped: the document
      `{"MeshMaterials":[{"Materials":[5]}]}` reads as one mesh with one
      default material. */
  lemma NonObjectMaterialKept()
    ensures var mesh := JObject([Member("Materials", JArray([JNumber(5.0)]))]);
      var doc := JObject([Member("MeshMaterials", JArray([mesh]))]);
      MetadataFromJson(Some(doc), EmptyMetadata) == Decoded(true, Metadata("", [MeshInfo("", [DefaultMaterial])]))
  {
    var mesh := JObject([Member("Materials", JArray([JNumber(5.0)]))]);
    var doc := JObject([Member("MeshMaterials", JArray([mesh]))]);
    assert KeyMatches(doc.members[0], "MeshMaterials");
    assert !KeyMatches(doc.members[0], "MetaTailorVersion");
    assert KeyMatches(mesh.members[0], "Materials");
    assert !KeyMatches(mesh.members[0], "MeshName");
  }

  // ---------------------------------------------------------------------------
  // Writing, and reading back

  /** A colour as the export writes it: its lower-case channel names. */
  function ColorToJson(c: Color): JValue {
    JObject([
      Member("r", JNumber(c.r)), Member("g", JNumber(c.g)),
      Member("b", JNumber(c.b)), Member("a", JNumber(c.a))])
  }

  /** A material as the export writes it: every field under its own name, in
      declaration order. */
  function MaterialToJson(m: MaterialInfo): JValue {
    JObject([
      Member("Name", JString(m.name)),
      Member("AlbedoName", JString(m.albedoName)),
      Member("NormalName", JString(m.normalName)),
      Member("RoughnessName", JString(m.roughnessName)),
      Member("MetallicName", JString(m.metallicName)),
      Member("OcclusionName", JString(m.occlusionName)),
      Member("EmissiveName", JString(m.emissiveName)),
      Member("OpacityName", JString(m.opacityName)),
      Member("SmoothnessValue", JNumber(m.smoothness)),
      Member("MetallicValue", JNumber(m.metallic)),
      Member("Tint", ColorToJson(m.tint))])
  }

  /** A mesh as the export writes it. */
  function MeshToJson(mesh: MeshInfo): JValue {
    JObject([
      Member("MeshName", JString(mesh.meshName)),
      Member("Materials", JArray(MaterialsToJson(mesh.materials)))])
  }

  /** What a material is once it has been written and read back. */
  function WithoutOpacity(m: MaterialInfo): MaterialInfo {
    m.(opacityName := "")
  }

  /** What a list of materials is once written and read back. */
  function AllWithoutOpacity(materials: seq<MaterialInfo>): (r: seq<MaterialInfo>)
    ensures |r| == |materials|
    ensures forall i :: 0 <= i < |materials| ==> r[i] == WithoutOpacity(materials[i])
  {
    seq(|materials|, i requires 0 <= i < |materials| => WithoutOpacity(materials[i]))
  }

  /** A lookup finds the member at `i` when it is the last one with that key. */
  lemma FoundAt(ms: seq<Member>, key: string, i: nat)
    requires i < |ms| && KeyMatches(ms[i], key)
    requires forall j :: i < j < |ms| ==> !KeyMatches(ms[j], key)
    ensures FieldIndex(ms, key) == Some(i)
  {
  }

  /** Keys that differ in their first letter, ignoring case, never match. */
  lemma FirstLetterDiffers(m: Member, key: string)
    requires |m.key| > 0 && |key| > 0 && Text.LowerChar(m.key[0]) != Text.LowerChar(key[0])
    ensures !KeyMatches(m, key)
  {
  }

  lemma ColorLookups(c: Color)
    ensures var ms := ColorToJson(c).members;
      FieldIndex(ms, "r") == Some(0) && FieldIndex(ms, "g") == Some(1) &&
      FieldIndex(ms, "b") == Some(2) && FieldIndex(ms, "a") == Some(3)
  {
    var ms := ColorToJson(c).members;
    FirstLetterDiffers(ms[1], "r"); FirstLetterDiffers(ms[2], "r"); FirstLetterDiffers(ms[3], "r");
    FoundAt(ms, "r", 0);
    FirstLetterDiffers(ms[2], "g"); FirstLetterDiffers(ms[3], "g");
    FoundAt(ms, "g", 1);
    FirstLetterDiffers(ms[3], "b");
    FoundAt(ms, "b", 2);
    FoundAt(ms, "a", 3);
  }

  /** A number read where the lookup lands is that number. */
  lemma NumberAt(ms: seq<Member>, key: string, i: nat, x: real, default: real)
    requires FieldIndex(ms, key) == Some(i) && ms[i].value == JNumber(x)
    ensures NumberOr(ms, key, default) == x
  {
  }

  lemma ColorRoundTrip(c: Color)
    ensures DecodeTint(Some(AsObject(ColorToJson(c)))) == c
  {
    var ms := ColorToJson(c).members;
    assert NumberOr(ms, "r", 0.0) == c.r && NumberOr(ms, "g", 0.0) == c.g by {
      ColorLookups(c);
      NumberAt(ms, "r", 0, c.r, 0.0);
      NumberAt(ms, "g", 1, c.g, 0.0);
    }
    assert NumberOr(ms, "b", 0.0) == c.b && NumberOr(ms, "a", 1.0) == c.a by {
      ColorLookups(c);
      NumberAt(ms, "b", 2, c.b, 0.0);
      NumberAt(ms, "a", 3, c.a, 1.0);
    }
  }

  /** Reading back a written material recovers it, except for the opacity
      name, which the reader ignores. */
  lemma MaterialRoundTrip(m: MaterialInfo)
    ensures MaterialEntry(MaterialToJson(m)) == Some(WithoutOpacity(m))
  {
    ReadName(m);
    ReadAlbedoName(m);
    ReadNormalName(m);
    ReadRoughnessName(m);
    ReadMetallicName(m);
    ReadOcclusionName(m);
    ReadEmissiveName(m);
    ReadSmoothnessValue(m);
    ReadMetallicValue(m);
    ReadTint(m);
  }

  lemma ReadName(m: MaterialInfo)
    ensures StringOr(MaterialToJson(m).members, "Name", "") == m.name
  {
    var ms := MaterialToJson(m).members;
    FirstLetterDiffers(ms[10], "Name");
    FoundAt(ms, "Name", 0);
  }

  lemma ReadAlbedoName(m: MaterialInfo)
    ensures StringOr(MaterialToJson(m).members, "AlbedoName", "") == m.albedoName
  {
    var ms := MaterialToJson(m).members;
    FirstLetterDiffers(ms[2], "AlbedoName");
    FoundAt(ms, "AlbedoName", 1);
  }

  lemma ReadNormalName(m: MaterialInfo)
    ensures StringOr(MaterialToJson(m).members, "NormalName", "") == m.normalName
  {
    var ms := MaterialToJson(m).members;
    FoundAt(ms, "NormalName", 2);
  }

  lemma ReadRoughnessName(m: MaterialInfo)
    ensures StringOr(MaterialToJson(m).members, "RoughnessName", "") == m.roughnessName
  {
    var ms := MaterialToJson(m).members;
    FirstLetterDiffers(ms[5], "RoughnessName");
    FirstLetterDiffers(ms[9], "RoughnessName");
    FoundAt(ms, "RoughnessName", 3);
  }

  lemma ReadMetallicName(m: MaterialInfo)
    ensures StringOr(MaterialToJson(m).members, "MetallicName", "") == m.metallicName
  {
    var ms := MaterialToJson(m).members;
    FirstLetterDiffers(ms[6], "MetallicName");
    FoundAt(ms, "MetallicName", 4);
  }

  lemma ReadOcclusionName(m: MaterialInfo)
    ensures StringOr(MaterialToJson(m).members, "OcclusionName", "") == m.occlusionName
  {
    var ms := MaterialToJson(m).members;
    FirstLetterDiffers(ms[9], "OcclusionName");
    FoundAt(ms, "OcclusionName", 5);
  }

  lemma ReadEmissiveName(m: MaterialInfo)
    ensures StringOr(MaterialToJson(m).members, "EmissiveName", "") == m.emissiveName
  {
    var ms := MaterialToJson(m).members;
    FoundAt(ms, "EmissiveName", 6);
  }

  lemma ReadSmoothnessValue(m: MaterialInfo)
    ensures NumberOr(MaterialToJson(m).members, "SmoothnessValue", 0.5) == m.smoothness
  {
    FoundAt(MaterialToJson(m).members, "SmoothnessValue", 8);
  }

  lemma ReadMetallicValue(m: MaterialInfo)
    ensures NumberOr(MaterialToJson(m).members, "MetallicValue", 0.0) == m.metallic
  {
    FoundAt(MaterialToJson(m).members, "MetallicValue", 9);
  }

  lemma ReadTint(m: MaterialInfo)
    ensures DecodeTint(TryGetObjectField(MaterialToJson(m).members, "Tint")) == m.tint
  {
    FoundAt(MaterialToJson(m).members, "Tint", 10);
    ColorRoundTrip(m.tint);
  }

  /** The materials of a mesh as the export writes them. */
  function MaterialsToJson(materials: seq<MaterialInfo>): (items: seq<JValue>)
    ensures |items| == |materials|
    ensures forall i :: 0 <= i < |materials| ==> items[i] == MaterialToJson(materials[i])
  {
    seq(|materials|, i requires 0 <= i < |materials| => MaterialToJson(materials[i]))
  }

  /** Reading back written materials recovers every one of them, in order. */
  lemma MaterialsRoundTrip(materials: seq<MaterialInfo>)
    ensures Collect(MaterialsToJson(materials), MaterialEntry) == AllWithoutOpacity(materials)
  {
    var items := MaterialsToJson(materials);
    forall i | 0 <= i < |items|
      ensures MaterialEntry(items[i]) == Some(WithoutOpacity(materials[i]))
    {
      MaterialRoundTrip(materials[i]);
    }
    CollectAll(items, MaterialEntry);
  }

  lemma ReadMesh(mesh: MeshInfo)
    ensures var ms := MeshToJson(mesh).members;
      StringOr(ms, "MeshName", "") == mesh.meshName && TryGetArrayField(ms, "Materials") == Some(MaterialsToJson(mesh.materials))
  {
    var ms := MeshToJson(mesh).members;
    assert !KeyMatches(ms[1], "MeshName");
    FoundAt(ms, "MeshName", 0);
    FoundAt(ms, "Materials", 1);
  }

  /** Reading back a written mesh recovers it, its materials without their
      opacity names. */
  lemma MeshRoundTrip(mesh: MeshInfo)
    ensures MeshEntry(MeshToJson(mesh)) == Some(MeshInfo(mesh.meshName, AllWithoutOpacity(mesh.materials)))
  {
    ReadMesh(mesh);
    MaterialsRoundTrip(mesh.materials);
  }

  /** A metadata document in the shape the reader expects. */
  function MetadataToJson(m: Metadata): JValue {
    JObject([
      Member("MetaTailorVersion", JString(m.version)),
      Member("MeshMaterials", JArray(seq(|m.meshes|, i requires 0 <= i < |m.meshes| => MeshToJson(m.meshes[i]))))])
  }

  /** What metadata is once written and read back. */
  function MeshesWithoutOpacity(meshes: seq<MeshInfo>): (r: seq<MeshInfo>)
    ensures |r| == |meshes|
    ensures forall i :: 0 <= i < |meshes| ==> r[i] == MeshInfo(meshes[i].meshName, AllWithoutOpacity(meshes[i].materials))
  {
    seq(|meshes|, i requires 0 <= i < |meshes| => MeshInfo(meshes[i].meshName, AllWithoutOpacity(meshes[i].materials)))
  }

  lemma ReadMetadata(m: Metadata)
    ensures var ms := MetadataToJson(m).members;
      && StringOr(ms, "MetaTailorVersion", "") == m.version
      && TryGetArrayField(ms, "MeshMaterials") == Some(MetadataToJson(m).members[1].value.items)
  {
    var ms := MetadataToJson(m).members;
    assert !KeyMatches(ms[1], "MetaTailorVersion");
    FoundAt(ms, "MetaTailorVersion", 0);
    FoundAt(ms, "MeshMaterials", 1);
  }

  /** Reading a well-formed document into fresh metadata succeeds and
      recovers every mesh and material, in order, less the opacity names. */
  lemma MetadataRoundTrip(m: Metadata)
    ensures MetadataFromJson(Some(MetadataToJson(m)), EmptyMetadata) ==
      Decoded(true, Metadata(m.version, MeshesWithoutOpacity(m.meshes)))
  {
    ReadMetadata(m);
    var items := MetadataToJson(m).members[1].value.items;
    forall i | 0 <= i < |items|
      ensures MeshEntry(items[i]) == Some(MeshesWithoutOpacity(m.meshes)[i])
    {
      MeshRoundTrip(m.meshes[i]);
    }
    CollectAll(items, MeshEntry);
    assert Collect(items, MeshEntry) == MeshesWithoutOpacity(m.meshes);
    assert EmptyMetadata.meshes + Collect(items, MeshEntry) == MeshesWithoutOpacity(m.meshes);
  }
}
