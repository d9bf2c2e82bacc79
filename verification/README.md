# METATAILOR Bridge for Unreal — a Dafny model of its core

The METATAILOR Bridge is an Unreal Editor plugin. It sends an exported FBX to
the METATAILOR desktop tool and waits for the dressed avatar or outfit to come
back. This project models the parts of the plugin that make decisions.

**The IPC component (`FMetaTailorIPC`).**
- The outbound request: its JSON body, its URL and port, and how the HTTP
  completion is classified.
- The inbound listener as a state machine, with three events:
  - start, with its "already listening" guard and socket set-up failures;
  - the periodic connection check: drain the socket in 4096-byte reads, cut
    the HTTP body after the first blank line, decode the response, tell the
    callback, send the fixed `200 OK` reply, and stop;
  - cancel.
- The response record and its classification as an outfit or an avatar.

**The pure helpers of the asset handler.**
- Reading the material metadata that comes back with an import.
- The project import path and the unique-directory search.
- The MetaHuman level-of-detail material swap.
- Texture lookup by name.
- How `ApplyMaterialMetadata` assigns material instances to slots.
- How `GetMeshMaterialInfoFromActor` allocates texture names to bakes.

The modules follow the program's structure:
- Shared layers:
  - `Wrappers`: the `Option` type.
  - `Text`: the engine's case-insensitive comparisons, `FromInt`, trimming and searching.
  - `Json`: a JSON value as an ordered member list. A lookup takes the last member whose key matches, ignoring case. The `TryGet*Field` readers are strict about kind.
- The IPC side: `Settings`, `Messages`, `Sender`, `Framing`, `Listener`.
- The asset-handler side: `Metadata`, `ImportPaths`, `Materials`, `TextureBake`, `MaterialSlots`.

Everything that touches the outside world is an input to the model. This covers:
- sockets, the HTTP module, the ticker and the settings object;
- the JSON text parser and the byte-to-text decoder, supplied as a `Codec`
  of functions;
- the asset registry and factory: a map of existing instances and a set of
  names whose creation fails, both keyed by the lower-cased instance name;
- the component and material graph, supplied as lists.

Source paths below are relative to the repository root.

## Model

| member | source | states |
|---|---|---|
| Settings.GetMetaTailorPort | OperationDuck/Plugins/MetaTailorBridge/Source/MetaTailorBridgeEditor/Private/MetaTailorIPC.cpp:43-47 | the tool's port is the configured one, and 53485 when no settings object exists |
| Settings.GetUnrealBridgePort | OperationDuck/Plugins/MetaTailorBridge/Source/MetaTailorBridgeEditor/Private/MetaTailorIPC.cpp:49-53 | the bridge's listening port is the configured one, and 53487 when no settings object exists |
| Messages.ToJson | OperationDuck/Plugins/MetaTailorBridge/Source/MetaTailorBridgeEditor/Private/MetaTailorIPC.cpp:13-19 | the request object has exactly the members `filePath` and `sourceName`, in that order; each reads back as the request's value |
| Messages.RequestRoundTrip | OperationDuck/Plugins/MetaTailorBridge/Source/MetaTailorBridgeEditor/Private/MetaTailorIPC.cpp:13-19 | reading the two string members back from the request object recovers the request |
| Messages.ParseType | OperationDuck/Plugins/MetaTailorBridge/Source/MetaTailorBridgeEditor/Public/MetaTailorIPC.h:20-25 | a response is an outfit exactly when its data type equals "Outfit" ignoring case. It is an avatar exactly when the type equals "Avatar" ignoring case. Otherwise it is unknown |
| Messages.OutfitIsNotAvatar | OperationDuck/Plugins/MetaTailorBridge/Source/MetaTailorBridgeEditor/Public/MetaTailorIPC.h:22-23 | no data type is both an outfit and an avatar, so the order of the two tests does not matter |
| Messages.ParseTypeByLowering | OperationDuck/Plugins/MetaTailorBridge/Source/MetaTailorBridgeEditor/Public/MetaTailorIPC.h:20-25 | the classification agrees with an independent one that lower-cases the type and compares it with "outfit" and "avatar" |
| Messages.ParseTypeIgnoresCase | OperationDuck/Plugins/MetaTailorBridge/Source/MetaTailorBridgeEditor/Public/MetaTailorIPC.h:22-23 | "outfit", "OUTFIT" and "aVaTaR" are recognised |
| Messages.ParseTypeUnknownExamples | OperationDuck/Plugins/MetaTailorBridge/Source/MetaTailorBridgeEditor/Public/MetaTailorIPC.h:20-25 | "Outfits", "Avatar " (with a trailing space) and the default response are unknown; there is no prefix match or trimming |
| Messages.FromJson | OperationDuck/Plugins/MetaTailorBridge/Source/MetaTailorBridgeEditor/Private/MetaTailorIPC.cpp:21-30 | decoding succeeds exactly when there is an object with string members `ModelPath` and `DataType`. The decoded fields carry their values. A missing `MetaTailorVersion` leaves the version empty |
| Messages.ResponseRoundTrip | OperationDuck/Plugins/MetaTailorBridge/Source/MetaTailorBridgeEditor/Private/MetaTailorIPC.cpp:21-30 | a response written as an object with its three fields decodes back to itself |
| Messages.FromJsonRejectsMissingPath | OperationDuck/Plugins/MetaTailorBridge/Source/MetaTailorBridgeEditor/Private/MetaTailorIPC.cpp:25 | an object with a data type but no model path is rejected |
| Sender.SendExportedModel | OperationDuck/Plugins/MetaTailorBridge/Source/MetaTailorBridgeEditor/Private/MetaTailorIPC.cpp:55-76 | the request is a POST with a JSON content type. Its body reads back as the exported path with the source name "METATAILOR Bridge for Unreal". Its URL names the tool's port |
| Sender.UrlRoundTrip | OperationDuck/Plugins/MetaTailorBridge/Source/MetaTailorBridgeEditor/Private/MetaTailorIPC.cpp:69 | the import URL built for a port parses back to that port |
| Sender.HandleSendModelResponse | OperationDuck/Plugins/MetaTailorBridge/Source/MetaTailorBridgeEditor/Private/MetaTailorIPC.cpp:84-105 | success exactly when the transport succeeded, a response exists and its code is 200 to 206; a success carries no message |
| Sender.SendOutcome | OperationDuck/Plugins/MetaTailorBridge/Source/MetaTailorBridgeEditor/Private/MetaTailorIPC.cpp:78-81 | a request that does not start fails with "Failed to start HTTP request.". Otherwise the completion decides |
| Sender.SendOutcomeIsClassified | OperationDuck/Plugins/MetaTailorBridge/Source/MetaTailorBridgeEditor/Private/MetaTailorIPC.cpp:78-101 | the outcome agrees with an independent classification into not started, no response, and HTTP error. It succeeds exactly when there is no failure, and otherwise carries that failure's description |
| Sender.DescribeDistinguishesKinds | OperationDuck/Plugins/MetaTailorBridge/Source/MetaTailorBridgeEditor/Private/MetaTailorIPC.cpp:90-101 | every failure message is non-empty, unlike a success's. Two failures with the same message are of the same kind (not started, no response, or HTTP error) |
| Framing.DrainAccumulates | OperationDuck/Plugins/MetaTailorBridge/Source/MetaTailorBridgeEditor/Private/MetaTailorIPC.cpp:249-274 | draining from any running total and buffer adds the closed-form total and bytes, and a receive error poisons the total |
| Framing.DrainIsClosedForm | OperationDuck/Plugins/MetaTailorBridge/Source/MetaTailorBridgeEditor/Private/MetaTailorIPC.cpp:249-274 | the receive loop equals its closed form: the leading full 4096-byte reads concatenated, then what the read that ends the loop contributes |
| Framing.DrainTotals | OperationDuck/Plugins/MetaTailorBridge/Source/MetaTailorBridgeEditor/Private/MetaTailorIPC.cpp:254-274 | the total is -1 exactly when the loop ends on a receive error. Otherwise the buffer starts with the full chunks. It carries 4096 extra unread bytes exactly when the loop ended on a non-positive read, and holds exactly the bytes counted otherwise |
| Framing.ChunksLength | OperationDuck/Plugins/MetaTailorBridge/Source/MetaTailorBridgeEditor/Private/MetaTailorIPC.cpp:257-264 | n full reads contribute 4096 * n bytes |
| Framing.ExtractBody | OperationDuck/Plugins/MetaTailorBridge/Source/MetaTailorBridgeEditor/Private/MetaTailorIPC.cpp:282-301 | the body is a suffix of the text. A shorter body starts right after the first CRLF CRLF. An unshortened body means the text holds no CRLF CRLF |
| Framing.HeaderEndFound | OperationDuck/Plugins/MetaTailorBridge/Source/MetaTailorBridgeEditor/Private/MetaTailorIPC.cpp:283-284 | in header lines without CR or LF followed by a blank line, the first CRLF CRLF is the end of the last header line |
| Framing.ExtractBodyOfHttpMessage | OperationDuck/Plugins/MetaTailorBridge/Source/MetaTailorBridgeEditor/Private/MetaTailorIPC.cpp:282-290 | for any HTTP message of header lines, a blank line and a body, the body is recovered exactly, whatever it contains |
| Framing.ExtractBodyWithoutTerminator | OperationDuck/Plugins/MetaTailorBridge/Source/MetaTailorBridgeEditor/Private/MetaTailorIPC.cpp:293-301 | text without a header terminator is taken whole as the body |
| Framing.ReplyForIsHttpMessage | OperationDuck/Plugins/MetaTailorBridge/Source/MetaTailorBridgeEditor/Private/MetaTailorIPC.cpp:350-352 | for any status, the formatted reply is an HTTP message of the status line, `Content-Length: 0` and `Connection: close`, with an empty body |
| Framing.ReplyIsHttpMessage | OperationDuck/Plugins/MetaTailorBridge/Source/MetaTailorBridgeEditor/Private/MetaTailorIPC.cpp:350-352 | the reply is a well-formed HTTP message of three header lines and an empty body |
| Framing.ReplyIsEmptyResponse | OperationDuck/Plugins/MetaTailorBridge/Source/MetaTailorBridgeEditor/Private/MetaTailorIPC.cpp:350-352 | the listener's own framing reads the reply's body as empty, matching its `Content-Length: 0` |
| Listener.StartListeningForResponse | OperationDuck/Plugins/MetaTailorBridge/Source/MetaTailorBridgeEditor/Private/MetaTailorIPC.cpp:107-199 | while listening, only the new callback hears "Already listening." and nothing changes. Otherwise the callback is stored first, and listening starts exactly when every set-up step succeeds. A failure reports once to the new callback; bind and listen failures leave no socket. The listener invariant is kept |
| Listener.StopListening | OperationDuck/Plugins/MetaTailorBridge/Source/MetaTailorBridgeEditor/Private/MetaTailorIPC.cpp:201-229 | after stopping, nothing listens, there is no socket and no callback, and the ticker registration is untouched |
| Listener.StopIsIdempotent | OperationDuck/Plugins/MetaTailorBridge/Source/MetaTailorBridgeEditor/Private/MetaTailorIPC.cpp:201-229 | stopping twice is stopping once: a second stop, from the notification or the window, changes nothing |
| Listener.BodyReport | OperationDuck/Plugins/MetaTailorBridge/Source/MetaTailorBridgeEditor/Private/MetaTailorIPC.cpp:303-341 | a report succeeds exactly when the body is non-empty, parses to an object and decodes, and then it carries the decoded response. Each failure carries the default response and its own message: empty body, not deserialisable, or wrong structure |
| Listener.Resolve | OperationDuck/Plugins/MetaTailorBridge/Source/MetaTailorBridgeEditor/Private/MetaTailorIPC.cpp:276-348 | a receive error produces no report and zero bytes reports "Received no data.". Otherwise the report is that of the body framed out of the decoded bytes |
| Listener.Notify | OperationDuck/Plugins/MetaTailorBridge/Source/MetaTailorBridgeEditor/Private/MetaTailorIPC.cpp:315-318 | a report reaches the stored callback, and nobody when none is stored |
| Listener.CheckForConnections | OperationDuck/Plugins/MetaTailorBridge/Source/MetaTailorBridgeEditor/Private/MetaTailorIPC.cpp:231-385 | not listening unregisters and does nothing, and no pending connection changes nothing. A failed accept reports and keeps listening. An accepted connection gets the fixed reply and stops the listener. At most one call is made, and it goes to the stored callback |
| Listener.RecvErrorIsSilent | OperationDuck/Plugins/MetaTailorBridge/Source/MetaTailorBridgeEditor/Private/MetaTailorIPC.cpp:266-348 | a connection whose receive failed is still answered, but the callback hears nothing |
| Listener.AcceptedConnectionReports | OperationDuck/Plugins/MetaTailorBridge/Source/MetaTailorBridgeEditor/Private/MetaTailorIPC.cpp:244-348 | otherwise an accepted connection produces exactly one call: the resolved outcome to the stored callback |
| Listener.Apply | OperationDuck/Plugins/MetaTailorBridge/Source/MetaTailorBridgeEditor/Private/MetaTailorIPC.cpp:107-385 | every event keeps the listener invariant: a socket exactly while listening, and a callback and a registered check while listening. A cancel calls nobody and sends nothing, and one event sends at most one reply |
| Listener.QuietUntilStarted | OperationDuck/Plugins/MetaTailorBridge/Source/MetaTailorBridgeEditor/Private/MetaTailorIPC.cpp:231-236 | until a start, any run of ticks and cancels calls nobody, replies to nobody and does not listen |
| Listener.SessionReports | OperationDuck/Plugins/MetaTailorBridge/Source/MetaTailorBridgeEditor/Private/MetaTailorIPC.cpp:239-380 | within one listening session, every report goes to the session's callback. All reports but the last are accept failures, and at most one connection is answered |
| Listener.AcceptFailuresRepeat | OperationDuck/Plugins/MetaTailorBridge/Source/MetaTailorBridgeEditor/Private/MetaTailorIPC.cpp:375-380 | n failed accepts leave the listener as it was and report "Failed to accept connection." n times |
| Listener.RestartAfterSession | OperationDuck/Plugins/MetaTailorBridge/Source/MetaTailorBridgeEditor/Private/MetaTailorIPC.cpp:111-213 | after a cancel or an answered connection the listener is idle, and a start with working sockets listens again |
| Listener.DrainOneShortRead | OperationDuck/Plugins/MetaTailorBridge/Source/MetaTailorBridgeEditor/Private/MetaTailorIPC.cpp:254-274 | a single short read drains exactly the bytes read |
| Listener.MinimalResponseDecodes | OperationDuck/Plugins/MetaTailorBridge/Source/MetaTailorBridgeEditor/Private/MetaTailorIPC.cpp:21-30 | an object with only a model path and a data type decodes, with an empty version |
| Listener.CheckReceivesRequest | OperationDuck/Plugins/MetaTailorBridge/Source/MetaTailorBridgeEditor/Private/MetaTailorIPC.cpp:239-373 | an HTTP request carrying a well-formed response in one short read succeeds to the callback, is answered, and ends listening |
| Listener.EndToEnd | OperationDuck/Plugins/MetaTailorBridge/Source/MetaTailorBridgeEditor/Private/MetaTailorIPC.cpp:107-373 | from a fresh component, a start followed by that request produces exactly one successful call with the response, one reply, and an idle listener |
| Metadata.CollectAppend | OperationDuck/Plugins/MetaTailorBridge/Source/MetaTailorBridgeEditor/Private/MetaTailorAssetHandler.cpp:139-185 | skipping malformed entries respects concatenation, so the decoded entries keep their order |
| Metadata.CollectAll | OperationDuck/Plugins/MetaTailorBridge/Source/MetaTailorBridgeEditor/Private/MetaTailorAssetHandler.cpp:139-185 | when every entry decodes, the result is every decoded entry in position |
| Metadata.DecodeTint | OperationDuck/Plugins/MetaTailorBridge/Source/MetaTailorBridgeEditor/Private/MetaTailorAssetHandler.cpp:167-181 | no tint object gives white. Within a tint object a missing channel gives 0 for r, g and b, and 1 for a |
| Metadata.EmptyTintIsBlack | OperationDuck/Plugins/MetaTailorBridge/Source/MetaTailorBridgeEditor/Private/MetaTailorAssetHandler.cpp:167-181 | an empty tint object gives opaque black, unlike an absent one, which gives white |
| Metadata.DecodeMaterial | OperationDuck/Plugins/MetaTailorBridge/Source/MetaTailorBridgeEditor/Private/MetaTailorAssetHandler.cpp:155-181 | each of the seven texture names is its string member or empty. Smoothness defaults to 0.5 and metallic to 0. The tint comes from the tint object. The opacity name is never read |
| Metadata.EmptyMaterialIsDefault | OperationDuck/Plugins/MetaTailorBridge/Source/MetaTailorBridgeEditor/Private/MetaTailorAssetHandler.cpp:155-181 | an empty material object decodes to the record's declared defaults |
| Metadata.MaterialEntry | OperationDuck/Plugins/MetaTailorBridge/Source/MetaTailorBridgeEditor/Private/MetaTailorAssetHandler.cpp:150-153 | every material entry yields a material: an object decodes, and anything else reads as the empty object, that is, as a default material |
| Metadata.MaterialsKeepPositions | OperationDuck/Plugins/MetaTailorBridge/Source/MetaTailorBridgeEditor/Private/MetaTailorAssetHandler.cpp:150-183 | a material array yields one material per entry, each at its entry's position |
| Metadata.DecodeMesh | OperationDuck/Plugins/MetaTailorBridge/Source/MetaTailorBridgeEditor/Private/MetaTailorAssetHandler.cpp:144-185 | a mesh decodes exactly when it has a `Materials` array. Its name defaults to empty, and it has one material per entry of that array, in order; a non-object entry is a default material |
| Metadata.MeshEntry | OperationDuck/Plugins/MetaTailorBridge/Source/MetaTailorBridgeEditor/Private/MetaTailorAssetHandler.cpp:139-148 | a mesh entry is kept exactly when it is an object with a `Materials` array; anything else reads as the empty object and is dropped |
| Metadata.MetadataFromJson | OperationDuck/Plugins/MetaTailorBridge/Source/MetaTailorBridgeEditor/Private/MetaTailorAssetHandler.cpp:128-188 | reading succeeds exactly when the text parses to an object with a `MeshMaterials` array. The version is read before that check, so it survives a missing array. Meshes are appended to those already held, and a failure leaves them unchanged |
| Metadata.VersionSurvivesFailure | OperationDuck/Plugins/MetaTailorBridge/Source/MetaTailorBridgeEditor/Private/MetaTailorAssetHandler.cpp:132-137 | a document with a version but no mesh array fails yet sets the version |
| Metadata.MalformedEntriesSkipped | OperationDuck/Plugins/MetaTailorBridge/Source/MetaTailorBridgeEditor/Private/MetaTailorAssetHandler.cpp:139-148 | a non-object mesh entry, which reads as an empty object, and a mesh without materials are both dropped between two good meshes, which keep their order |
| Metadata.NonObjectMaterialKept | OperationDuck/Plugins/MetaTailorBridge/Source/MetaTailorBridgeEditor/Private/MetaTailorAssetHandler.cpp:139-185 | the document with one mesh whose only material entry is the number 5 reads as one mesh with one default material |
| Metadata.ColorRoundTrip | OperationDuck/Plugins/MetaTailorBridge/Source/MetaTailorBridgeEditor/Private/MetaTailorAssetHandler.cpp:167-176 | a colour written with lower-case channel keys reads back unchanged |
| Metadata.MaterialRoundTrip | OperationDuck/Plugins/MetaTailorBridge/Source/MetaTailorBridgeEditor/Private/MetaTailorAssetHandler.cpp:150-183 | a material written with PascalCase keys reads back unchanged except its opacity name, which is not read |
| Metadata.MaterialsRoundTrip | OperationDuck/Plugins/MetaTailorBridge/Source/MetaTailorBridgeEditor/Private/MetaTailorAssetHandler.cpp:150-184 | a written list of materials reads back in order, without opacity names |
| Metadata.MeshRoundTrip | OperationDuck/Plugins/MetaTailorBridge/Source/MetaTailorBridgeEditor/Private/MetaTailorAssetHandler.cpp:139-185 | a written mesh reads back with its name and materials |
| Metadata.MetadataRoundTrip | OperationDuck/Plugins/MetaTailorBridge/Source/MetaTailorBridgeEditor/Private/MetaTailorAssetHandler.cpp:128-188 | a written metadata document reads back successfully with its version and every mesh |
| ImportPaths.ConfiguredFolder | OperationDuck/Plugins/MetaTailorBridge/Source/MetaTailorBridgeEditor/Private/MetaTailorAssetHandler.cpp:193-196 | the folder is the configured avatar or outfit folder, or the built-in "MetaTailorImported/..." one when there are no settings |
| ImportPaths.ReplaceBackslashes | OperationDuck/Plugins/MetaTailorBridge/Source/MetaTailorBridgeEditor/Private/MetaTailorAssetHandler.cpp:203 | position by position, backslashes become slashes and nothing else changes; no backslash remains |
| ImportPaths.NormalizeDirectoryName | OperationDuck/Plugins/MetaTailorBridge/Source/MetaTailorBridgeEditor/Private/MetaTailorAssetHandler.cpp:203 | without a trailing slash the path only has its slashes normalised. A trailing slash is kept exactly when it follows another slash or a colon, and otherwise exactly that slash is removed |
| ImportPaths.TidyFolder | OperationDuck/Plugins/MetaTailorBridge/Source/MetaTailorBridgeEditor/Private/MetaTailorAssetHandler.cpp:203-204 | normalising and then removing a trailing slash removes exactly one trailing slash, if there is one, from the path with its slashes normalised |
| ImportPaths.RemoveTrailingSlash | OperationDuck/Plugins/MetaTailorBridge/Source/MetaTailorBridgeEditor/Private/MetaTailorAssetHandler.cpp:204 | exactly one trailing slash is removed, if there is one |
| ImportPaths.RootedFolder | OperationDuck/Plugins/MetaTailorBridge/Source/MetaTailorBridgeEditor/Private/MetaTailorAssetHandler.cpp:198-202 | the folder is trimmed. It is kept as it is when it already starts with "/Game/" ignoring case, and otherwise "/Game/" is put in front |
| ImportPaths.ImportPathFor | OperationDuck/Plugins/MetaTailorBridge/Source/MetaTailorBridgeEditor/Private/MetaTailorAssetHandler.cpp:198-206 | the path is the rooted folder with its slashes normalised and exactly one trailing slash, if any, removed. It contains no backslash |
| ImportPaths.GetProjectImportPath | OperationDuck/Plugins/MetaTailorBridge/Source/MetaTailorBridgeEditor/Private/MetaTailorAssetHandler.cpp:191-207 | the import path is the configured folder, rooted, with slashes normalised and one trailing slash removed. It starts with "/Game" ignoring case and contains no backslash |
| ImportPaths.PlainFolderPath | OperationDuck/Plugins/MetaTailorBridge/Source/MetaTailorBridgeEditor/Private/MetaTailorAssetHandler.cpp:198-206 | a plain relative folder becomes "/Game/" followed by the folder |
| ImportPaths.AlreadyRooted | OperationDuck/Plugins/MetaTailorBridge/Source/MetaTailorBridgeEditor/Private/MetaTailorAssetHandler.cpp:198-206 | a plain folder that already starts with any spelling of "/Game/" is kept as it is, without a second root |
| ImportPaths.LowerCaseRootKept | OperationDuck/Plugins/MetaTailorBridge/Source/MetaTailorBridgeEditor/Private/MetaTailorAssetHandler.cpp:198-206 | a folder starting with "/game/" counts as rooted and is kept |
| ImportPaths.TrimmedFolderSamePath | OperationDuck/Plugins/MetaTailorBridge/Source/MetaTailorBridgeEditor/Private/MetaTailorAssetHandler.cpp:198-206 | surrounding whitespace does not change the import path |
| ImportPaths.TrailingSlashDropped | OperationDuck/Plugins/MetaTailorBridge/Source/MetaTailorBridgeEditor/Private/MetaTailorAssetHandler.cpp:203-204 | a folder with one trailing slash gives the same path as without it |
| ImportPaths.DoubleSlashKeepsOne | OperationDuck/Plugins/MetaTailorBridge/Source/MetaTailorBridgeEditor/Private/MetaTailorAssetHandler.cpp:203-204 | a folder ending in two slashes keeps one |
| ImportPaths.FallbackAvatarPath | OperationDuck/Plugins/MetaTailorBridge/Source/MetaTailorBridgeEditor/Private/MetaTailorAssetHandler.cpp:194-206 | without settings the avatar path is "/Game/MetaTailorImported/Avatars" |
| ImportPaths.DefaultAvatarPath | OperationDuck/Plugins/MetaTailorBridge/Source/MetaTailorBridgeEditor/Private/MetaTailorBridgeSettings.cpp:7 | with the settings object as constructed, the avatar path is "/Game/MetaTailorImported/Avatars": the default folder is already rooted and loses its trailing slash |
| ImportPaths.EmptyFolderIsRoot | OperationDuck/Plugins/MetaTailorBridge/Source/MetaTailorBridgeEditor/Private/MetaTailorAssetHandler.cpp:198-206 | an empty folder gives "/Game" |
| ImportPaths.CandidateInjective | OperationDuck/Plugins/MetaTailorBridge/Source/MetaTailorBridgeEditor/Private/MetaTailorAssetHandler.cpp:349-353 | different attempts try different directory names |
| ImportPaths.GetUniqueDirectory | OperationDuck/Plugins/MetaTailorBridge/Source/MetaTailorBridgeEditor/Private/MetaTailorAssetHandler.cpp:347-356 | the result does not exist. It is the name itself when that is free. Otherwise it is the first free name in the order name, name2, name3, ...: every earlier candidate exists. The search ends because the existing set is finite |
| Materials.LastMatch | OperationDuck/Plugins/MetaTailorBridge/Source/MetaTailorBridgeEditor/Private/MetaTailorAssetHandler.cpp:1360-1366 | the found option is non-null and named as targeted, ignoring case, and no later option is. None means no option matches |
| Materials.SwapEntry | OperationDuck/Plugins/MetaTailorBridge/Source/MetaTailorBridgeEditor/Private/MetaTailorAssetHandler.cpp:1353-1366 | null stays null. A material without a "HiLODs" counterpart stays. A replacement is always such a counterpart among the options, and the last one when several match |
| Materials.SwapLod | OperationDuck/Plugins/MetaTailorBridge/Source/MetaTailorBridgeEditor/Private/MetaTailorAssetHandler.cpp:1350-1369 | the list keeps its length and each entry is swapped independently |
| Materials.SwapMetaHumanLodMaterials | OperationDuck/Plugins/MetaTailorBridge/Source/MetaTailorBridgeEditor/Private/MetaTailorAssetHandler.cpp:1350-1369 | the in-place loop computes the entry-wise swap, and null entries stay null |
| Materials.SwapFindsHiLods | OperationDuck/Plugins/MetaTailorBridge/Source/MetaTailorBridgeEditor/Private/MetaTailorAssetHandler.cpp:1357-1365 | an eyelash material is replaced by its "...HiLODs" counterpart, skipping unrelated and null options |
| MaterialSlots.FirstMatch | OperationDuck/Plugins/MetaTailorBridge/Source/MetaTailorBridgeEditor/Private/MetaTailorAssetHandler.cpp:719-732 | the found position is the first non-null texture whose name matches, ignoring case. None means no texture matches |
| MaterialSlots.Found | OperationDuck/Plugins/MetaTailorBridge/Source/MetaTailorBridgeEditor/Private/MetaTailorAssetHandler.cpp:719-732 | a found texture is a candidate whose name matches, ignoring case. Nothing is found exactly when no candidate matches |
| MaterialSlots.EmptyNameFindsNothing | OperationDuck/Plugins/MetaTailorBridge/Source/MetaTailorBridgeEditor/Private/MetaTailorAssetHandler.cpp:848-871 | an empty texture name in the metadata finds no texture, so it sets no parameter |
| MaterialSlots.TexturesSet | OperationDuck/Plugins/MetaTailorBridge/Source/MetaTailorBridgeEditor/Private/MetaTailorAssetHandler.cpp:848-871 | each texture slot is set to its found texture and keeps its old value when none is found. No other parameter changes |
| MaterialSlots.ScalarsSet | OperationDuck/Plugins/MetaTailorBridge/Source/MetaTailorBridgeEditor/Private/MetaTailorAssetHandler.cpp:872-874 | smoothness, metallic and tint are always set from the description; texture parameters are untouched |
| MaterialSlots.Configured | OperationDuck/Plugins/MetaTailorBridge/Source/MetaTailorBridgeEditor/Private/MetaTailorAssetHandler.cpp:838-874 | a configured instance has every found texture in its slot, the emissive name drives `EmissionTexture`, and texture slots without a match are kept. The three scalar and vector values are set from the description. The parent is unchanged |
| MaterialSlots.SameKey | OperationDuck/Plugins/MetaTailorBridge/Source/MetaTailorBridgeEditor/Private/MetaTailorAssetHandler.cpp:811-812 | two instance names find the same registry entry exactly when they are equal ignoring case |
| MaterialSlots.Obtain | OperationDuck/Plugins/MetaTailorBridge/Source/MetaTailorBridgeEditor/Private/MetaTailorAssetHandler.cpp:812-837 | an instance is had exactly when one exists under its name ignoring case, or it can be created. It is parented to the base material. An existing one keeps its parameters and a new one has none |
| MaterialSlots.FlatIndex | OperationDuck/Plugins/MetaTailorBridge/Source/MetaTailorBridgeEditor/Private/MetaTailorAssetHandler.cpp:781-797 | material j of mesh i is at position (materials of earlier meshes) + j in the flattened order, which is the slot index the counter reaches |
| MaterialSlots.Advance | OperationDuck/Plugins/MetaTailorBridge/Source/MetaTailorBridgeEditor/Private/MetaTailorAssetHandler.cpp:791-797 | while a slot is left, the running index is one behind the count of descriptions walked, and the next description goes on the next slot |
| MaterialSlots.RunOut | OperationDuck/Plugins/MetaTailorBridge/Source/MetaTailorBridgeEditor/Private/MetaTailorAssetHandler.cpp:791-797 | once the index passes the last slot, the remaining descriptions of the mesh change nothing |
| MaterialSlots.ApplyMaterialMetadata | OperationDuck/Plugins/MetaTailorBridge/Source/MetaTailorBridgeEditor/Private/MetaTailorAssetHandler.cpp:735-903 | a null asset, empty metadata, a non-mesh asset or no slots changes nothing. Otherwise the nested loops with their inner `break` equal applying the first min(descriptions, slots) descriptions in order, in slot-index order across meshes |
| MaterialSlots.InstancesGrow | OperationDuck/Plugins/MetaTailorBridge/Source/MetaTailorBridgeEditor/Private/MetaTailorAssetHandler.cpp:812-837 | applying descriptions never loses an instance, and every instance present afterwards existed before or could be created |
| MaterialSlots.SlotsAssigned | OperationDuck/Plugins/MetaTailorBridge/Source/MetaTailorBridgeEditor/Private/MetaTailorAssetHandler.cpp:791-897 | slot k ends with the instance found under the name of description k, ignoring case, when that description is applied and its instance can be had. Otherwise the slot keeps its material |
| MaterialSlots.EntrySets | OperationDuck/Plugins/MetaTailorBridge/Source/MetaTailorBridgeEditor/Private/MetaTailorAssetHandler.cpp:812-874 | applying a description whose instance can be had leaves the instance under that name parented to the base material, with the description's scalars, tint and found textures |
| MaterialSlots.EntryKeepsOthers | OperationDuck/Plugins/MetaTailorBridge/Source/MetaTailorBridgeEditor/Private/MetaTailorAssetHandler.cpp:812-874 | applying a description leaves the instance of every name that differs from its instance name other than in case exactly as it was |
| MaterialSlots.LastDescriptionWins | OperationDuck/Plugins/MetaTailorBridge/Source/MetaTailorBridgeEditor/Private/MetaTailorAssetHandler.cpp:799-874 | the instance named for description k, when no later description has the same name ignoring case, is parented to the base material and carries that description's scalars, tint and found textures |
| MaterialSlots.CaseVariantsShareInstance | OperationDuck/Plugins/MetaTailorBridge/Source/MetaTailorBridgeEditor/Private/MetaTailorAssetHandler.cpp:799-897 | two descriptions whose instance names differ only in case put the same instance in their slots |
| TextureBake.NameStable | OperationDuck/Plugins/MetaTailorBridge/Source/MetaTailorBridgeEditor/Private/MetaTailorAssetHandler.cpp:1453-1473 | a texture name once recorded for a material and property does not change as further bakes are requested |
| TextureBake.Record | OperationDuck/Plugins/MetaTailorBridge/Source/MetaTailorBridgeEditor/Private/MetaTailorAssetHandler.cpp:1477-1505 | recording a property's texture sets exactly that property's name field. Roughness also resets smoothness to 0.5, and metallic sets the metallic value to 1 |
| TextureBake.Allocate | OperationDuck/Plugins/MetaTailorBridge/Source/MetaTailorBridgeEditor/Private/MetaTailorAssetHandler.cpp:1453-1474 | a pair already baked keeps its name and adds no bake. Skin opacity gets the empty name and no bake. Any other new pair is appended, named by its index. The request list stays duplicate-free |
| TextureBake.DescribeProperties | OperationDuck/Plugins/MetaTailorBridge/Source/MetaTailorBridgeEditor/Private/MetaTailorAssetHandler.cpp:1449-1506 | every connected property walked is baked, except skin opacity. New bakes are of this material and of walked properties, and a material already covered adds none. The request list stays duplicate-free |
| TextureBake.PropertiesRecorded | OperationDuck/Plugins/MetaTailorBridge/Source/MetaTailorBridgeEditor/Private/MetaTailorAssetHandler.cpp:1449-1506 | each connected property walked gets its recorded name, and unconnected ones keep their field. A connected roughness sets smoothness 0.5 and a connected metallic sets metallic 1 |
| TextureBake.EveryPropertyBaked | OperationDuck/Plugins/MetaTailorBridge/Source/MetaTailorBridgeEditor/Private/MetaTailorAssetHandler.cpp:1281-1289 | every material property of the model is in the bake list |
| TextureBake.DescribeMaterial | OperationDuck/Plugins/MetaTailorBridge/Source/MetaTailorBridgeEditor/Private/MetaTailorAssetHandler.cpp:1439-1508 | new bakes are of this material only, the request list stays duplicate-free, and a material already covered adds no bake |
| TextureBake.MaterialDescribed | OperationDuck/Plugins/MetaTailorBridge/Source/MetaTailorBridgeEditor/Private/MetaTailorAssetHandler.cpp:1439-1508 | the description has the material's name and white tint. Smoothness is 0.5 and metallic is 1 exactly when metallic is connected. Each texture field is the recorded name of a connected property and empty otherwise. Afterwards every connected property but skin opacity is baked |
| TextureBake.SkinOpacityNeverNamed | OperationDuck/Plugins/MetaTailorBridge/Source/MetaTailorBridgeEditor/Private/MetaTailorAssetHandler.cpp:1460 | a MetaHuman skin material is exported with no opacity texture |
| TextureBake.DescribedSkinOpacity | OperationDuck/Plugins/MetaTailorBridge/Source/MetaTailorBridgeEditor/Private/MetaTailorAssetHandler.cpp:1460 | any description of a MetaHuman skin material names no opacity texture |
| TextureBake.DescribesStable | OperationDuck/Plugins/MetaTailorBridge/Source/MetaTailorBridgeEditor/Private/MetaTailorAssetHandler.cpp:1453-1459 | a material's description stays true as later materials add bakes |
| TextureBake.DescribeAgain | OperationDuck/Plugins/MetaTailorBridge/Source/MetaTailorBridgeEditor/Private/MetaTailorAssetHandler.cpp:1453-1459 | describing a material again later gives the same description and requests no bake |
| TextureBake.NonNull | OperationDuck/Plugins/MetaTailorBridge/Source/MetaTailorBridgeEditor/Private/MetaTailorAssetHandler.cpp:1437-1439 | the materials walked are exactly the non-null entries |
| TextureBake.DescribeMaterials | OperationDuck/Plugins/MetaTailorBridge/Source/MetaTailorBridgeEditor/Private/MetaTailorAssetHandler.cpp:1437-1509 | new bakes are only of the mesh's materials, and the request list stays duplicate-free |
| TextureBake.MaterialsDescribed | OperationDuck/Plugins/MetaTailorBridge/Source/MetaTailorBridgeEditor/Private/MetaTailorAssetHandler.cpp:1437-1509 | every non-null material of a mesh is described in order, and each description stays true after the mesh's later materials add bakes |
| TextureBake.DescribeComponents | OperationDuck/Plugins/MetaTailorBridge/Source/MetaTailorBridgeEditor/Private/MetaTailorAssetHandler.cpp:1395-1511 | each component with a mesh asset yields one mesh report of its name and described materials, in order. New bakes are only of reported materials |
| TextureBake.GetMeshMaterialInfoFromActor | OperationDuck/Plugins/MetaTailorBridge/Source/MetaTailorBridgeEditor/Private/MetaTailorAssetHandler.cpp:1370-1511 | the export carries the plugin's version and is empty for a null actor. Skeletal then static components are reported. Bakes are duplicate-free and of reported materials, and texture name k is "k" |
| TextureBake.NamedExactlyWhenBaked | OperationDuck/Plugins/MetaTailorBridge/Source/MetaTailorBridgeEditor/Private/MetaTailorAssetHandler.cpp:1453-1474 | in a reported material, a texture field is non-empty exactly when that property is baked, and then it is the bake's index |
| TextureBake.SharedMaterialsAgree | OperationDuck/Plugins/MetaTailorBridge/Source/MetaTailorBridgeEditor/Private/MetaTailorAssetHandler.cpp:1384-1459 | the same material on two meshes or slots is reported identically, sharing its textures |

Notes on choices made where the program and its documentation differ, or
where the engine decides:
- Engine string equality, `StartsWith`, `Contains` and object-name equality
  all ignore case. The "...HiLODs" match compares names with `FString ==`
  (MetaTailorAssetHandler.cpp:1364), which ignores case. Texture lookup by
  name and JSON key lookup also ignore case.
- Material instances are found and created by object path, which compares
  names ignoring case. The model keys the registry by the instance name
  folded to lower case, so two descriptions named "Skin" and "skin" share
  one instance, and the later one configures it.
- `FJsonValue::AsObject` on a value that is not an object hands back the
  engine's shared empty object, never an invalid pointer. So the
  `IsValid()` checks in `FromJson` skip nothing. A non-object material
  entry reads as a default material and keeps its place. A non-object mesh
  entry is dropped, because it has no `Materials` array.
- A successful HTTP status is 200 to 206, as the engine's `IsOk` defines it,
  and not every 2xx code.
- A configured folder ending in "//" keeps one trailing slash, because only
  one slash is removed at the end. Normalising and then removing a slash
  together remove exactly one trailing slash.
- The engine path helpers are assumed to behave as follows:
  - `TrimStartAndEnd` strips ASCII whitespace.
  - `Combine("/Game/", p)` is plain concatenation.
  - `NormalizeDirectoryName` turns backslashes into slashes. It then drops
    one trailing slash, unless the path ends in "//" or ":/".
- The ticker handle is taken to become invalid once the check unregisters
  itself by returning false. So a start after a finished session registers
  the check again, and a start before that unregistering reuses the
  registration that is still alive.

## Left out

- Notifications, the cancel button, the throbber and the window-close hook are left out. They only call `StopListening`, which is the `Cancel` event. One effect is not shown: the notification is marked successful even after a failed parse (MetaTailorIPC.cpp:371-372).
- Real sockets, the HTTP module and the ticker are inputs: whether each set-up step, accept and receive succeeds, and the bytes received. The tick interval and the listen backlog have no effect on the model.
- The JSON text parser, the serializer and UTF-8 decoding are supplied as functions. The model relies only on what they return.
- Numbers are reals. The engine's `float` narrowing of tints and scalars is not modelled.
- The `TryGet*Field` readers are strict about kind. The engine coerces in both directions: `TryGetStringField` accepts numbers and booleans, and `TryGetNumberField` accepts numeric strings and booleans. Neither coercion is modelled, so a `SmoothnessValue`, `MetallicValue` or tint channel written as a string or a boolean reads here as absent.
- Object names (`FName`) are strings. The special name "None" and number suffixes are not modelled.
- `SanitizeObjectName` is taken to leave names unchanged.
- The base material is assumed to load. The path where it is missing, in which instances are created without a parent, is not modelled.
- `ConfigureTextureSettings`, `PostEditChange` and `MarkPackageDirty` only touch editor state, so they are left out.
- Baking and the fallback for a bad bake are left out, and so is the bake resolution. The FBX and texture import, the blueprint creation, `StageReceivedFiles` and `ReimportStagedFBX` are left out as well. These are engine operations beyond the named helpers.
- The accepted connection socket is never closed or destroyed, although the reply announces `Connection: close`. `StopListening` destroys only the listening socket (MetaTailorIPC.cpp:201-213). Sockets are inputs here, so the model has no socket to leak and does not show this.
- The engine text of `FJsonValue::AsObject` is not part of this model. Its behaviour on non-objects, which returns the shared empty object, is taken from the engine's documented implementation.
- Sender.SendOutcome: a request that fails to start is assumed never to fire its completion. The completion is bound before `ProcessRequest` is called (MetaTailorIPC.cpp:76-78), and the engine's HTTP module may still finish such a request with `bWasSuccessful` false. Then `OnComplete` would run twice, once with "HTTP Request Failed or No Response." and once with "Failed to start HTTP request.", and the user would see two failure notifications. The model reports a failed start once.
- Framing.Drain, Framing.DrainTotals: the running total and the buffer are unbounded. The source's total is an `int32`, and its byte array has an `int32` size that is a fatal error past 2^31 - 1 bytes (MetaTailorIPC.cpp:251-257). A request over 2 GiB is not modelled.
- The destructor (MetaTailorIPC.cpp:38-41) only calls `StopListening`. It does not remove the ticker, which is bound to the object itself (MetaTailorIPC.cpp:33-35, 186-189). A destruction while listening, or before the next tick unregisters the check, leaves the ticker calling into a destroyed object. The model has no destruction event and does not show this.
- ImportPaths.GetUniqueDirectory: the `int` counter is unbounded. Its 32-bit overflow would need about two billion existing directories.
- `GetMaterialsReferencedByLod0` and its static counterpart are not modelled. Their results are given as each component's level-0 material list.
- The null-component and unexpected-type branches of the export are left out. The `Actor` model holds only skeletal and static mesh components, so those branches cannot occur.
- The export document's keys (`BridgeVersion`, `MeshInfos`) differ from the ones the reader expects (`MeshMaterials`). The model keeps the two records apart and does not claim they round-trip. `Metadata`'s writer functions use the reader's keys.
- The PascalCase JSON writer's exact text is left out. Its key choice is modelled by `Metadata`'s writer functions.
- A skeletal mesh's materials are written back after each mesh rather than once. Only the final slot contents are modelled.
