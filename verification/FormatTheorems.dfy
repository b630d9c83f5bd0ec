/** The cache identity names the formats that the rest of the model speaks. */
module FormatTheorems {
  import opened Prelude
  import opened EnvironmentFile
  import C = CacheIdentity
  import Framing
  import SchemaGraph

  /**
   The versions in the identity are those of the snapshots that are accepted and the frames that are
   read, so a change of either leaves no old entry in use.
   */
  lemma IdentityNamesFormats(s: SchemaGraph.Snapshot)
    requires SchemaGraph.Accepts(s)
    ensures s.schemaVersion == C.Current().schema
    ensures Ascii(s.positionEncoding) == C.Current().positionEncoding
    ensures C.Current().frameLimit == Framing.MAX_FRAME_SIZE
  {
  }
}
