/** The plugin's configuration, consumed as plain values, and the port
    lookups of the IPC component with their fall-backs. */
module Settings {
  import opened Wrappers

  const DefaultMetaTailorPort: int := 53485
  const DefaultUnrealBridgePort: int := 53487

  datatype BridgeSettings = BridgeSettings(
    metaTailorPort: int,
    unrealBridgePort: int,
    pathForOutfitImports: string,
    pathForAvatarImports: string,
    exportTextureResolution: int)

  /** The values the settings object is constructed with. */
  const Defaults := BridgeSettings(
    DefaultMetaTailorPort, DefaultUnrealBridgePort,
    "/Game/MetaTailorImported/Outfits/", "/Game/MetaTailorImported/Avatars/", 1024)

  /** The port of the external tool; `settings` is None when the settings
      object cannot be obtained. */
  function GetMetaTailorPort(settings: Option<BridgeSettings>): (port: int)
    ensures settings.Some? ==> port == settings.value.metaTailorPort
    ensures settings.None? ==> port == 53485
  {
    if settings.Some? then settings.value.metaTailorPort else DefaultMetaTailorPort
  }

  /** The port the bridge listens on for the tool's reply. */
  function GetUnrealBridgePort(settings: Option<BridgeSettings>): (port: int)
    ensures settings.Some? ==> port == settings.value.unrealBridgePort
    ensures settings.None? ==> port == 53487
  {
    if settings.Some? then settings.value.unrealBridgePort else DefaultUnrealBridgePort
  }
}
