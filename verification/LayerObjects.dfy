/** The layer record that the layer store's list and tables share. */
module LayerObjects {
  class Layer {
    const id: string
    var names: seq<string>
    var compressedDigest: string
    var uncompressedDigest: string
    var mountPoint: string
    var mountCount: int

    constructor (id: string, names: seq<string>)
      ensures this.id == id && this.names == names
      ensures compressedDigest == "" && uncompressedDigest == "" && mountPoint == "" && mountCount == 0
    {
      this.id, this.names := id, names;
      compressedDigest, uncompressedDigest, mountPoint, mountCount := "", "", "", 0;
    }
  }
}
