/**
 * Choice of the remote store path strategy and of the translog metadata mode
 * at index creation time (RemoteStoreCustomMetadataResolver).
 *
 * The cluster is given as the sequence of its nodes' attribute maps: the source
 * walks every entry of the node map, so the node ids play no part.
 */
module PathResolver {
  import opened Common

  datatype PathType = FIXED | HASHED_PREFIX | HASHED_INFIX

  datatype PathHashAlgorithm = FNV_1A_BASE64 | FNV_1A_COMPOSITE_1

  /** The strategy handed to the index metadata; None stands for a null hash algorithm. */
  datatype RemoteStorePathStrategy = RemoteStorePathStrategy(pathType: PathType, hashAlgorithm: Option<PathHashAlgorithm>)

  /** The cluster-level remote store settings the resolver reads. */
  datatype RemoteStoreSettings = RemoteStoreSettings(
    pathType: PathType,
    pathHashAlgorithm: PathHashAlgorithm,
    translogMetadataEnabled: bool)

  /** The translog repository; only whether its blob store supports metadata matters. */
  datatype BlobStoreRepository = BlobStoreRepository(blobMetadataEnabled: bool)

  datatype ResolverError = IllegalArgument

  type NodeAttributes = map<string, string>

  const REMOTE_CUSTOM_METADATA_ATTRIBUTE_KEY: string := "optimised_remote_store_enable"

  predicate HasAttribute(node: NodeAttributes) {
    REMOTE_CUSTOM_METADATA_ATTRIBUTE_KEY in node
  }

  /** The loop of isRemoteCustomMetadataEnabled: stops at the first node without the attribute. */
  function AllNodesHaveAttribute(nodes: seq<NodeAttributes>): (r: bool)
    ensures r <==> forall i :: 0 <= i < |nodes| ==> HasAttribute(nodes[i])
  {
    if nodes == [] then true
    else if !HasAttribute(nodes[0]) then false
    else AllNodesHaveAttribute(nodes[1..])
  }

  /** Custom metadata is enabled only in a non-empty cluster whose every node carries the attribute. */
  function IsRemoteCustomMetadataEnabled(nodes: seq<NodeAttributes>): (r: bool)
    ensures r <==> |nodes| > 0 && forall i :: 0 <= i < |nodes| ==> HasAttribute(nodes[i])
  {
    if |nodes| == 0 then false else AllNodesHaveAttribute(nodes)
  }

  /**
   * The configured path type when custom metadata is enabled, FIXED otherwise; a
   * hash algorithm exactly when the path type is not FIXED.
   */
  function GetPathStrategy(settings: RemoteStoreSettings, nodes: seq<NodeAttributes>): (r: RemoteStorePathStrategy)
    ensures r.pathType == (if IsRemoteCustomMetadataEnabled(nodes) then settings.pathType else FIXED)
    ensures r.hashAlgorithm.None? <==> r.pathType == FIXED
    ensures r.hashAlgorithm.Some? ==> r.hashAlgorithm.value == settings.pathHashAlgorithm
  {
    var pathType := if IsRemoteCustomMetadataEnabled(nodes) then settings.pathType else FIXED;
    var hashAlgorithm := if pathType == FIXED then None else Some(settings.pathHashAlgorithm);
    RemoteStorePathStrategy(pathType, hashAlgorithm)
  }

  /**
   * A missing translog repository is an IllegalArgumentException whatever the
   * cluster looks like; otherwise translog metadata is enabled iff custom metadata
   * is enabled, the setting is on and the blob store supports metadata.
   */
  function IsTranslogMetadataEnabled(
    settings: RemoteStoreSettings,
    nodes: seq<NodeAttributes>,
    repository: Option<BlobStoreRepository>): (r: Result<bool, ResolverError>)
    ensures r.Err? <==> repository.None?
    ensures r.Ok? ==> (r.value <==> (&& |nodes| > 0
                                     && (forall i :: 0 <= i < |nodes| ==> HasAttribute(nodes[i]))
                                     && settings.translogMetadataEnabled
                                     && repository.value.blobMetadataEnabled))
  {
    match repository
    case None => Err(IllegalArgument)
    case Some(repo) =>
      Ok(IsRemoteCustomMetadataEnabled(nodes) && settings.translogMetadataEnabled && repo.blobMetadataEnabled)
  }

  /** A cluster without nodes always gets the FIXED path type, no hash algorithm and no translog metadata. */
  lemma EmptyClusterIsFixed(settings: RemoteStoreSettings)
    ensures GetPathStrategy(settings, []) == RemoteStorePathStrategy(FIXED, None)
    ensures forall repo :: IsTranslogMetadataEnabled(settings, [], Some(repo)) == Ok(false)
  {
  }

  /** One node without the attribute forces FIXED, wherever it sits in the cluster. */
  lemma NodeWithoutAttributeIsFixed(settings: RemoteStoreSettings, nodes: seq<NodeAttributes>, k: nat)
    requires k < |nodes| && !HasAttribute(nodes[k])
    ensures GetPathStrategy(settings, nodes) == RemoteStorePathStrategy(FIXED, None)
    ensures forall repo :: IsTranslogMetadataEnabled(settings, nodes, Some(repo)) == Ok(false)
  {
  }

  /** When every node carries the attribute the configured path type and algorithm are used. */
  lemma AllNodesWithAttributeUseConfigured(settings: RemoteStoreSettings, nodes: seq<NodeAttributes>)
    requires |nodes| > 0 && forall i :: 0 <= i < |nodes| ==> HasAttribute(nodes[i])
    ensures GetPathStrategy(settings, nodes).pathType == settings.pathType
    ensures GetPathStrategy(settings, nodes).hashAlgorithm
         == (if settings.pathType == FIXED then None else Some(settings.pathHashAlgorithm))
    ensures forall repo :: IsTranslogMetadataEnabled(settings, nodes, Some(repo))
                        == Ok(settings.translogMetadataEnabled && repo.blobMetadataEnabled)
  {
  }
}
