/** What the plugins hand to `S3.upload`: the client built from the
    credentials, and the bucket, key and body of one object. */
module Upload {

  /** The arguments of `new S3({ accessKeyId, secretAccessKey, region })`. */
  datatype S3Client = S3Client(accessKeyId: string, secretAccessKey: string, region: string)

  /** An object body: the UTF-8 text of a batch, possibly compressed. The
      compressors themselves are opaque, so a compressed body records which
      compressor was applied to what. */
  datatype Body = Utf8(text: string) | Gzip(inner: Body) | Brotli(inner: Body)

  datatype UploadParams = UploadParams(bucket: string, key: string, body: Body)

  /** Number of compression passes applied to a body. */
  function Layers(b: Body): nat {
    match b
    case Utf8(_) => 0
    case Gzip(inner) => 1 + Layers(inner)
    case Brotli(inner) => 1 + Layers(inner)
  }

  /** What a reader gets back after undoing every compression pass
      (`gunzip`, brotli decompression), each of which inverts its compressor. */
  function Decompress(b: Body): string {
    match b
    case Utf8(text) => text
    case Gzip(inner) => Decompress(inner)
    case Brotli(inner) => Decompress(inner)
  }
}
