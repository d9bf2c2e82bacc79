/** Texture-name allocation while the material metadata of an actor is
    exported: every connected property of every material is baked once, to a
    texture named by its position among the bakes ("0", "1", ...), and a
    material met again on another mesh reuses the names it was given. The
    opacity of MetaHuman skin is never baked: the skin shader uses that input
    for subsurface scattering.

    The bake itself, the resolution it runs at and the PNG files it writes
    are not modelled; the bake requests are. */
module TextureBake {
  import opened Wrappers
  import opened Materials
  import opened Metadata
  import Text

  /** One entry of the bake: a property of a material. Its texture is named
      by its index in the list of requests. */
  datatype BakeRequest = BakeRequest(material: MaterialRef, property: Property)

  /** The invariant of the request list: no pair twice, every pair a
      connected property, and no skin opacity. */
  predicate WellFormed(requests: seq<BakeRequest>) {
    && (forall i, j :: 0 <= i < j < |requests| ==> requests[i] != requests[j])
    && (forall i :: 0 <= i < |requests| ==> requests[i].property in requests[i].material.connected)
    && (forall i :: 0 <= i < |requests| ==> !(requests[i].property == Opacity && IsMetaHumanSkin(requests[i].material)))
  }

  predicate Extends(longer: seq<BakeRequest>, shorter: seq<BakeRequest>) {
    |shorter| <= |longer| && longer[..|shorter|] == shorter
  }

  /** Where a pair was requested, if it was. */
  function RequestIndex(requests: seq<BakeRequest>, request: BakeRequest): (r: Option<nat>)
    ensures r.Some? ==> r.value < |requests| && requests[r.value] == request
    ensures r.None? <==> request !in requests
  {
    if |requests| == 0 then None
    else if requests[0] == request then Some(0)
    else
      match RequestIndex(requests[1..], request)
      case Some(k) => Some(k + 1)
      case None => None
  }

  /** The texture name recorded for a property of a material: the index of
      its bake, or empty when it is not baked. */
  function TextureNameFor(requests: seq<BakeRequest>, m: MaterialRef, p: Property): string {
    match RequestIndex(requests, BakeRequest(m, p))
    case Some(k) => Text.NatToString(k)
    case None => ""
  }

  /** A name once recorded does not change as more bakes are requested. */
  lemma NameStable(shorter: seq<BakeRequest>, longer: seq<BakeRequest>, m: MaterialRef, p: Property)
    requires Extends(longer, shorter) && WellFormed(longer)
    requires BakeRequest(m, p) in shorter || (p == Opacity && IsMetaHumanSkin(m))
    ensures TextureNameFor(shorter, m, p) == TextureNameFor(longer, m, p)
  {
    var request := BakeRequest(m, p);
    if request in shorter {
      var k := RequestIndex(shorter, request).value;
      var k' := RequestIndex(longer, request).value;
      assert longer[k] == shorter[k];
    } else {
      assert request !in longer;
    }
  }

  // ---------------------------------------------------------------------------
  // One material

  /** The field of a material description that names the texture of a
      property. */
  function TextureField(info: MaterialInfo, p: Property): string {
    match p
    case BaseColor => info.albedoName
    case Normal => info.normalName
    case Roughness => info.roughnessName
    case Metallic => info.metallicName
    case AmbientOcclusion => info.occlusionName
    case EmissiveColor => info.emissiveName
    case Opacity => info.opacityName
  }

  const DefaultSmoothness: real := 0.5

  /** Records the texture of a connected property. A connected roughness
      keeps the default smoothness; a connected metallic makes the material
      fully metallic. */
  function Record(info: MaterialInfo, p: Property, name: string): (r: MaterialInfo)
    ensures TextureField(r, p) == name
    ensures forall q :: q != p ==> TextureField(r, q) == TextureField(info, q)
    ensures r.name == info.name && r.tint == info.tint
    ensures r.metallic == (if p == Metallic then 1.0 else info.metallic)
    ensures r.smoothness == (if p == Roughness then 0.5 else info.smoothness)
  {
    match p
    case BaseColor => info.(albedoName := name)
    case Normal => info.(normalName := name)
    case Roughness => info.(smoothness := DefaultSmoothness, roughnessName := name)
    case Metallic => info.(metallic := 1.0, metallicName := name)
    case AmbientOcclusion => info.(occlusionName := name)
    case EmissiveColor => info.(emissiveName := name)
    case Opacity => info.(opacityName := name)
  }

  datatype Allocated = Allocated(name: string, requests: seq<BakeRequest>)

  /** The name for a connected property: the one recorded earlier, or a new
      bake at the end of the list, or none for the opacity of skin. */
  function Allocate(m: MaterialRef, p: Property, requests: seq<BakeRequest>): (a: Allocated)
    requires WellFormed(requests) && p in m.connected
    ensures WellFormed(a.requests) && Extends(a.requests, requests)
    ensures BakeRequest(m, p) in requests ==> a.requests == requests
    ensures BakeRequest(m, p) !in requests && !(p == Opacity && IsMetaHumanSkin(m)) ==>
      a.requests == requests + [BakeRequest(m, p)] && a.name == Text.NatToString(|requests|)
    ensures p == Opacity && IsMetaHumanSkin(m) ==> a.requests == requests && a.name == ""
    ensures a.name == TextureNameFor(a.requests, m, p)
  {
    var request := BakeRequest(m, p);
    if request in requests then Allocated(TextureNameFor(requests, m, p), requests)
    else if p != Opacity || !IsMetaHumanSkin(m) then
      var next := requests + [request];
      assert next[..|requests|] == requests;
      assert RequestIndex(next, request) == Some(|requests|);
      Allocated(Text.NatToString(|requests|), next)
    else Allocated("", requests)
  }

  datatype Described = Described(info: MaterialInfo, requests: seq<BakeRequest>)

  /** Walks the properties in order, recording a name for each connected
      one. The bakes it adds are of `m` and of properties in `props`; every
      connected property but the opacity of skin ends up baked, and a material
      already covered adds nothing. */
  function DescribeProperties(m: MaterialRef, props: seq<Property>, info: MaterialInfo, requests: seq<BakeRequest>): (d: Described)
    requires WellFormed(requests)
    ensures WellFormed(d.requests) && Extends(d.requests, requests)
    ensures forall k :: |requests| <= k < |d.requests| ==> d.requests[k].material == m && d.requests[k].property in props
    ensures forall p :: p in props && p in m.connected && !(p == Opacity && IsMetaHumanSkin(m)) ==> BakeRequest(m, p) in d.requests
    ensures Covered(m, requests) ==> d.requests == requests
    decreases |props|
  {
    if |props| == 0 then Described(info, requests)
    else
      var p := props[0];
      assert forall q :: q in props <==> q == p || q in props[1..];
      if p !in m.connected then DescribeProperties(m, props[1..], info, requests)
      else
        var a := Allocate(m, p, requests);
        var rest := DescribeProperties(m, props[1..], Record(info, p, a.name), a.requests);
        StepRequests(requests, a.requests, rest.requests, m, p, props);
        rest
  }

  /** The bookkeeping of one step of `DescribeProperties`: the bake of `p`
      (if any) followed by bakes of the remaining properties. */
  lemma StepRequests(requests: seq<BakeRequest>, mid: seq<BakeRequest>, after: seq<BakeRequest>, m: MaterialRef, p: Property, props: seq<Property>)
    requires |props| > 0 && props[0] == p
    requires Extends(mid, requests) && Extends(after, mid)
    requires forall k :: |requests| <= k < |mid| ==> mid[k] == BakeRequest(m, p)
    requires forall k :: |mid| <= k < |after| ==> after[k].material == m && after[k].property in props[1..]
    ensures Extends(after, requests)
    ensures forall k :: |requests| <= k < |after| ==> after[k].material == m && after[k].property in props
    ensures BakeRequest(m, p) in mid ==> BakeRequest(m, p) in after
  {
    assert after[..|requests|] == mid[..|requests|];
    forall k | |requests| <= k < |mid|
      ensures after[k] == BakeRequest(m, p)
    {
      assert after[k] == mid[k];
    }
    if BakeRequest(m, p) in mid {
      var k :| 0 <= k < |mid| && mid[k] == BakeRequest(m, p);
      assert after[k] == mid[k];
    }
  }

  /** What `DescribeProperties` records: each connected property in `props`
      gets the name of its bake, every other field keeps its value, and the
      scalars follow the connected roughness and metallic inputs. */
  lemma {:induction false} PropertiesRecorded(m: MaterialRef, props: seq<Property>, info: MaterialInfo, requests: seq<BakeRequest>)
    requires WellFormed(requests)
    ensures var d := DescribeProperties(m, props, info, requests);
      && (forall p :: p in props && p in m.connected ==> TextureField(d.info, p) == TextureNameFor(d.requests, m, p))
      && (forall p :: !(p in props && p in m.connected) ==> TextureField(d.info, p) == TextureField(info, p))
      && d.info.name == info.name && d.info.tint == info.tint
      && d.info.metallic == (if Metallic in props && Metallic in m.connected then 1.0 else info.metallic)
      && d.info.smoothness == (if Roughness in props && Roughness in m.connected then 0.5 else info.smoothness)
    decreases |props|
  {
    if |props| > 0 {
      var p := props[0];
      assert forall q :: q in props <==> q == p || q in props[1..];
      if p !in m.connected {
        PropertiesRecorded(m, props[1..], info, requests);
      } else {
        var a := Allocate(m, p, requests);
        var info' := Record(info, p, a.name);
        PropertiesRecorded(m, props[1..], info', a.requests);
        var rest := DescribeProperties(m, props[1..], info', a.requests);
        assert DescribeProperties(m, props, info, requests) == rest;
        NameStable(a.requests, rest.requests, m, p);
      }
    }
  }

  lemma EveryPropertyBaked()
    ensures forall p :: p in PropertiesToBake
  {
    forall p ensures p in PropertiesToBake {
      match p
      case BaseColor =>
      case Normal =>
      case Roughness =>
      case Metallic =>
      case AmbientOcclusion =>
      case EmissiveColor =>
      case Opacity =>
    }
  }

  /** A material as the export first describes it: its name, a white tint,
      default smoothness, not metallic. */
  function InitialInfo(m: MaterialRef): MaterialInfo {
    DefaultMaterial.(name := m.name)
  }

  lemma InitiallyUntextured(m: MaterialRef)
    ensures forall p :: TextureField(InitialInfo(m), p) == ""
  {
  }

  lemma SkinOpacityUnnamed(m: MaterialRef, requests: seq<BakeRequest>)
    requires WellFormed(requests)
    ensures IsMetaHumanSkin(m) ==> TextureNameFor(requests, m, Opacity) == ""
  {
    if IsMetaHumanSkin(m) {
      assert BakeRequest(m, Opacity) !in requests;
    }
  }

  /** `info` is what the export says of material `m` once `requests` are
      settled: its name, a white tint, the default smoothness, metallic
      exactly when metallic is connected, and for every property the name of
      its bake when connected and no texture otherwise. */
  predicate Describes(info: MaterialInfo, m: MaterialRef, requests: seq<BakeRequest>) {
    && info.name == m.name && info.tint == White && info.smoothness == 0.5
    && info.metallic == (if Metallic in m.connected then 1.0 else 0.0)
    && forall p :: TextureField(info, p) == (if p in m.connected then TextureNameFor(requests, m, p) else "")
  }

  /** Every connected property of `m` is baked, except the opacity of skin. */
  predicate Covered(m: MaterialRef, requests: seq<BakeRequest>) {
    forall p :: p in m.connected && !(p == Opacity && IsMetaHumanSkin(m)) ==> BakeRequest(m, p) in requests
  }

  /** A settled description stays true as later materials add bakes. */
  lemma DescribesStable(info: MaterialInfo, m: MaterialRef, shorter: seq<BakeRequest>, longer: seq<BakeRequest>)
    requires Describes(info, m, shorter) && Covered(m, shorter)
    requires Extends(longer, shorter) && WellFormed(longer)
    ensures Describes(info, m, longer) && Covered(m, longer)
  {
    forall p | p in m.connected
      ensures TextureNameFor(shorter, m, p) == TextureNameFor(longer, m, p)
    {
      NameStable(shorter, longer, m, p);
    }
    forall p | BakeRequest(m, p) in shorter
      ensures BakeRequest(m, p) in longer
    {
      var k := RequestIndex(shorter, BakeRequest(m, p)).value;
      assert longer[k] == shorter[k];
    }
  }

  /** The description of one material and the bakes it adds, all of them
      bakes of that material. */
  function DescribeMaterial(m: MaterialRef, requests: seq<BakeRequest>): (d: Described)
    requires WellFormed(requests)
    ensures WellFormed(d.requests) && Extends(d.requests, requests)
    ensures forall k :: |requests| <= k < |d.requests| ==> d.requests[k].material == m
    ensures Covered(m, requests) ==> d.requests == requests
  {
    DescribeProperties(m, PropertiesToBake, InitialInfo(m), requests)
  }

  /** What one material's description says: its name, a white tint, the
      default smoothness, metallic exactly when metallic is connected, and the
      name of the bake of every connected property; afterwards every connected
      property but the opacity of skin is baked. */
  lemma MaterialDescribed(m: MaterialRef, requests: seq<BakeRequest>)
    requires WellFormed(requests)
    ensures var d := DescribeMaterial(m, requests); Describes(d.info, m, d.requests) && Covered(m, d.requests)
  {
    EveryPropertyBaked();
    InitiallyUntextured(m);
    PropertiesRecorded(m, PropertiesToBake, InitialInfo(m), requests);
  }

  /** The opacity of MetaHuman skin never gets a texture name. */
  lemma SkinOpacityNeverNamed(m: MaterialRef, requests: seq<BakeRequest>)
    requires WellFormed(requests)
    ensures IsMetaHumanSkin(m) ==> DescribeMaterial(m, requests).info.opacityName == ""
  {
    var d := DescribeMaterial(m, requests);
    if IsMetaHumanSkin(m) {
      MaterialDescribed(m, requests);
      DescribedSkinOpacity(d.info, m, d.requests);
    }
  }

  /** Whatever describes a skin material names no opacity texture. */
  lemma DescribedSkinOpacity(info: MaterialInfo, m: MaterialRef, requests: seq<BakeRequest>)
    requires Describes(info, m, requests) && WellFormed(requests) && IsMetaHumanSkin(m)
    ensures info.opacityName == ""
  {
    assert TextureField(info, Opacity) == info.opacityName;
    SkinOpacityUnnamed(m, requests);
  }

  /** Two descriptions that agree on every texture name, the name, the tint
      and both scalars are the same description. */
  lemma SameFields(a: MaterialInfo, b: MaterialInfo)
    requires forall p :: TextureField(a, p) == TextureField(b, p)
    requires a.name == b.name && a.tint == b.tint
    requires a.smoothness == b.smoothness && a.metallic == b.metallic
    ensures a == b
  {
    assert TextureField(a, BaseColor) == TextureField(b, BaseColor);
    assert TextureField(a, Normal) == TextureField(b, Normal);
    assert TextureField(a, Roughness) == TextureField(b, Roughness);
    assert TextureField(a, Metallic) == TextureField(b, Metallic);
    assert TextureField(a, AmbientOcclusion) == TextureField(b, AmbientOcclusion);
    assert TextureField(a, EmissiveColor) == TextureField(b, EmissiveColor);
    assert TextureField(a, Opacity) == TextureField(b, Opacity);
  }

  /** A material met again, after any further bakes, is described exactly as
      before and adds no bake. */
  lemma DescribeAgain(m: MaterialRef, first: seq<BakeRequest>, later: seq<BakeRequest>)
    requires WellFormed(first) && WellFormed(later)
    requires Extends(later, DescribeMaterial(m, first).requests)
    ensures DescribeMaterial(m, later) == Described(DescribeMaterial(m, first).info, later)
  {
    var d1 := DescribeMaterial(m, first);
    var d2 := DescribeMaterial(m, later);
    MaterialDescribed(m, first);
    MaterialDescribed(m, later);
    DescribesStable(d1.info, m, d1.requests, later);
    forall p | p in m.connected
      ensures TextureNameFor(d1.requests, m, p) == TextureNameFor(later, m, p)
    {
      NameStable(d1.requests, later, m, p);
    }
    assert Describes(d1.info, m, d1.requests) && Describes(d2.info, m, d2.requests);
    SameFields(d1.info, d2.info);
  }

  // ---------------------------------------------------------------------------
  // Meshes and the actor

  /** The materials of a mesh, null slots dropped. */
  function NonNull(ms: seq<Option<MaterialRef>>): (r: seq<MaterialRef>)
    ensures |r| <= |ms|
    ensures forall m :: m in r <==> Some(m) in ms
  {
    if |ms| == 0 then []
    else
      assert forall x :: x in ms <==> x == ms[0] || x in ms[1..];
      (if ms[0].Some? then [ms[0].value] else []) + NonNull(ms[1..])
  }

  /** Each description in `infos` describes the material at the same place. */
  predicate AllDescribe(infos: seq<MaterialInfo>, ms: seq<MaterialRef>, requests: seq<BakeRequest>) {
    && |infos| == |ms|
    && forall i :: 0 <= i < |infos| ==> Describes(infos[i], ms[i], requests) && Covered(ms[i], requests)
  }

  lemma AllDescribeCons(info: MaterialInfo, m: MaterialRef, infos: seq<MaterialInfo>, ms: seq<MaterialRef>, requests: seq<BakeRequest>)
    requires Describes(info, m, requests) && Covered(m, requests)
    requires AllDescribe(infos, ms, requests)
    ensures AllDescribe([info] + infos, [m] + ms, requests)
  {
    var all, mats := [info] + infos, [m] + ms;
    forall i | 1 <= i < |all|
      ensures Describes(all[i], mats[i], requests) && Covered(mats[i], requests)
    {
      assert all[i] == infos[i - 1] && mats[i] == ms[i - 1];
    }
  }

  /** The bakes from position `from` on are all of materials in `ms`. */
  predicate BakesOf(requests: seq<BakeRequest>, from: nat, ms: seq<MaterialRef>) {
    forall k :: from <= k < |requests| ==> requests[k].material in ms
  }

  lemma BakesOfJoin(r0: seq<BakeRequest>, r1: seq<BakeRequest>, r2: seq<BakeRequest>, a: seq<MaterialRef>, b: seq<MaterialRef>)
    requires Extends(r1, r0) && Extends(r2, r1)
    requires BakesOf(r1, |r0|, a) && BakesOf(r2, |r1|, b)
    ensures Extends(r2, r0) && BakesOf(r2, |r0|, a + b)
  {
    assert r2[..|r0|] == r1[..|r0|];
    forall k | |r0| <= k < |r1|
      ensures r2[k].material in a + b
    {
      assert r2[k] == r1[k];
    }
  }

  datatype DescribedList = DescribedList(infos: seq<MaterialInfo>, requests: seq<BakeRequest>)

  /** Describes the non-null materials of one mesh in order; every bake it
      adds is of one of those materials. */
  function DescribeMaterials(ms: seq<MaterialRef>, requests: seq<BakeRequest>): (d: DescribedList)
    requires WellFormed(requests)
    ensures WellFormed(d.requests) && Extends(d.requests, requests)
    ensures BakesOf(d.requests, |requests|, ms)
    decreases |ms|
  {
    if |ms| == 0 then DescribedList([], requests)
    else
      var first := DescribeMaterial(ms[0], requests);
      var rest := DescribeMaterials(ms[1..], first.requests);
      assert BakesOf(first.requests, |requests|, [ms[0]]);
      BakesOfJoin(requests, first.requests, rest.requests, [ms[0]], ms[1..]);
      assert ms == [ms[0]] + ms[1..];
      DescribedList([first.info] + rest.infos, rest.requests)
  }

  /** Once a mesh is described, each of its descriptions describes the
      material at the same place, whatever the mesh's later materials added. */
  lemma {:induction false} MaterialsDescribed(ms: seq<MaterialRef>, requests: seq<BakeRequest>)
    requires WellFormed(requests)
    ensures var d := DescribeMaterials(ms, requests); AllDescribe(d.infos, ms, d.requests)
    decreases |ms|
  {
    if |ms| > 0 {
      var first := DescribeMaterial(ms[0], requests);
      MaterialsDescribed(ms[1..], first.requests);
      MaterialDescribed(ms[0], requests);
      var rest := DescribeMaterials(ms[1..], first.requests);
      DescribesStable(first.info, ms[0], first.requests, rest.requests);
      AllDescribeCons(first.info, ms[0], rest.infos, ms[1..], rest.requests);
      assert ms == [ms[0]] + ms[1..];
    }
  }

  /** A mesh component of the actor, with its level-0 material slots. */
  datatype Component =
    | Skeletal(name: string, hasAsset: bool, lod0: seq<Option<MaterialRef>>, overrides: seq<Option<MaterialRef>>)
    | Static(name: string, hasAsset: bool, lod0: seq<Option<MaterialRef>>)

  /** The components in the order the export visits them: all skeletal mesh
      components, then all static mesh components. */
  datatype Actor = Actor(skeletal: seq<Component>, statics: seq<Component>)

  function Components(actor: Actor): seq<Component> {
    actor.skeletal + actor.statics
  }

  /** The materials the export walks for a component, or nothing when the
      component has no mesh asset. Skeletal meshes get the MetaHuman level of
      detail swap first. */
  function MaterialsToIterate(c: Component): Option<seq<Option<MaterialRef>>> {
    if !c.hasAsset then None
    else if c.Skeletal? then Some(SwapLod(c.lod0, c.overrides))
    else Some(c.lod0)
  }

  /** A mesh the export reports: the component's name and the materials it
      describes. */
  datatype ExportedMesh = ExportedMesh(name: string, materials: seq<MaterialRef>)

  /** The reference list of reported meshes: one per component with a mesh
      asset, in visiting order. */
  function Exported(cs: seq<Component>): seq<ExportedMesh> {
    if |cs| == 0 then []
    else
      match MaterialsToIterate(cs[0])
      case None => Exported(cs[1..])
      case Some(ms) => [ExportedMesh(cs[0].name, NonNull(ms))] + Exported(cs[1..])
  }

  /** Every material of the reported meshes. */
  function AllMaterials(meshes: seq<ExportedMesh>): seq<MaterialRef> {
    if |meshes| == 0 then [] else meshes[0].materials + AllMaterials(meshes[1..])
  }

  /** `info` reports mesh `e` once `requests` are settled. */
  predicate Reports(info: MeshInfo, e: ExportedMesh, requests: seq<BakeRequest>) {
    info.meshName == e.name && AllDescribe(info.materials, e.materials, requests)
  }

  lemma AllDescribeStable(infos: seq<MaterialInfo>, ms: seq<MaterialRef>, shorter: seq<BakeRequest>, longer: seq<BakeRequest>)
    requires AllDescribe(infos, ms, shorter)
    requires Extends(longer, shorter) && WellFormed(longer)
    ensures AllDescribe(infos, ms, longer)
  {
    forall j | 0 <= j < |ms|
      ensures Describes(infos[j], ms[j], longer) && Covered(ms[j], longer)
    {
      DescribesStable(infos[j], ms[j], shorter, longer);
    }
  }

  /** Each mesh description in `infos` reports the mesh at the same place. */
  predicate AllReport(infos: seq<MeshInfo>, meshes: seq<ExportedMesh>, requests: seq<BakeRequest>) {
    && |infos| == |meshes|
    && forall i :: 0 <= i < |infos| ==> Reports(infos[i], meshes[i], requests)
  }

  lemma AllReportCons(info: MeshInfo, e: ExportedMesh, infos: seq<MeshInfo>, meshes: seq<ExportedMesh>, requests: seq<BakeRequest>)
    requires Reports(info, e, requests) && AllReport(infos, meshes, requests)
    ensures AllReport([info] + infos, [e] + meshes, requests)
  {
    var all, es := [info] + infos, [e] + meshes;
    forall i | 1 <= i < |all|
      ensures Reports(all[i], es[i], requests)
    {
      assert all[i] == infos[i - 1] && es[i] == meshes[i - 1];
    }
  }

  datatype DescribedMeshes = DescribedMeshes(meshes: seq<MeshInfo>, requests: seq<BakeRequest>)

  /** Describes the components in order, skipping those without a mesh
      asset. */
  function DescribeComponents(cs: seq<Component>, requests: seq<BakeRequest>): (d: DescribedMeshes)
    requires WellFormed(requests)
    ensures WellFormed(d.requests) && Extends(d.requests, requests)
    ensures AllReport(d.meshes, Exported(cs), d.requests)
    ensures BakesOf(d.requests, |requests|, AllMaterials(Exported(cs)))
    decreases |cs|
  {
    if |cs| == 0 then DescribedMeshes([], requests)
    else
      match MaterialsToIterate(cs[0])
      case None => DescribeComponents(cs[1..], requests)
      case Some(ms) =>
        var first := DescribeMaterials(NonNull(ms), requests);
        MaterialsDescribed(NonNull(ms), requests);
        var info := MeshInfo(cs[0].name, first.infos);
        var e := ExportedMesh(cs[0].name, NonNull(ms));
        var rest := DescribeComponents(cs[1..], first.requests);
        AllDescribeStable(first.infos, e.materials, first.requests, rest.requests);
        AllReportCons(info, e, rest.meshes, Exported(cs[1..]), rest.requests);
        BakesOfJoin(requests, first.requests, rest.requests, e.materials, AllMaterials(Exported(cs[1..])));
        assert Exported(cs) == [e] + Exported(cs[1..]);
        assert AllMaterials(Exported(cs)) == e.materials + AllMaterials(Exported(cs[1..]));
        DescribedMeshes([info] + rest.meshes, rest.requests)
  }

  /** `FUnrealToMetaTailorData`: the bridge version, a description per mesh,
      the bakes to run and the name of each bake's texture. */
  datatype ExportData = ExportData(
    bridgeVersion: string, meshInfos: seq<MeshInfo>, bakeRequests: seq<BakeRequest>, textureNames: seq<string>)

  function TextureNames(n: nat): (r: seq<string>)
    ensures |r| == n && forall k :: 0 <= k < n ==> r[k] == Text.NatToString(k)
  {
    seq(n, k requires 0 <= k => Text.NatToString(k))
  }

  /** `GetMeshMaterialInfoFromActor` without the bake: no actor gives only the
      version. Otherwise every reported mesh describes its materials by the
      names of their bakes, texture k is named "k", each bake is of a material
      of a reported mesh, and no pair is baked twice. */
  function GetMeshMaterialInfoFromActor(bridgeVersion: string, actor: Option<Actor>): (e: ExportData)
    ensures e.bridgeVersion == bridgeVersion
    ensures actor.None? ==> e.meshInfos == [] && e.bakeRequests == []
    ensures WellFormed(e.bakeRequests)
    ensures |e.textureNames| == |e.bakeRequests|
    ensures forall k :: 0 <= k < |e.textureNames| ==> e.textureNames[k] == Text.NatToString(k)
    ensures actor.Some? ==> AllReport(e.meshInfos, Exported(Components(actor.value)), e.bakeRequests)
    ensures actor.Some? ==> BakesOf(e.bakeRequests, 0, AllMaterials(Exported(Components(actor.value))))
  {
    match actor
    case None => ExportData(bridgeVersion, [], [], [])
    case Some(a) =>
      var d := DescribeComponents(Components(a), []);
      ExportData(bridgeVersion, d.meshes, d.requests, TextureNames(|d.requests|))
  }

  /** A texture name in a settled description is present exactly when the
      property was baked, and then it is the position of that bake. */
  lemma NamedExactlyWhenBaked(info: MaterialInfo, m: MaterialRef, requests: seq<BakeRequest>, p: Property)
    requires Describes(info, m, requests) && WellFormed(requests)
    ensures TextureField(info, p) != "" <==> BakeRequest(m, p) in requests
    ensures BakeRequest(m, p) in requests ==>
      TextureField(info, p) == Text.NatToString(RequestIndex(requests, BakeRequest(m, p)).value)
  {
    if BakeRequest(m, p) in requests {
      assert p in m.connected;
    }
  }

  /** Within one export, a material used by two meshes is described the same
      way on both. */
  lemma SharedMaterialsAgree(e: ExportData, actor: Actor, i1: nat, j1: nat, i2: nat, j2: nat)
    requires e == GetMeshMaterialInfoFromActor(e.bridgeVersion, Some(actor))
    requires i1 < |e.meshInfos| && j1 < |e.meshInfos[i1].materials|
    requires i2 < |e.meshInfos| && j2 < |e.meshInfos[i2].materials|
    requires Exported(Components(actor))[i1].materials[j1] == Exported(Components(actor))[i2].materials[j2]
    ensures e.meshInfos[i1].materials[j1] == e.meshInfos[i2].materials[j2]
  {
    var meshes := Exported(Components(actor));
    assert Reports(e.meshInfos[i1], meshes[i1], e.bakeRequests);
    assert Reports(e.meshInfos[i2], meshes[i2], e.bakeRequests);
    var a, b := e.meshInfos[i1].materials[j1], e.meshInfos[i2].materials[j2];
    var m := meshes[i1].materials[j1];
    assert Describes(a, m, e.bakeRequests) && Describes(b, m, e.bakeRequests);
    SameFields(a, b);
  }
}
