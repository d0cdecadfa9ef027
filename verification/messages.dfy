/** Control messages of a Mani stream (src/mani/message.rs) and compression types (src/compression.rs). */
module Messages {
  import opened Types

  datatype CompressionType = NoCompression | Gzip | Zstd | Lz4

  datatype TransferMode = Dual | UnreliableOnly

  datatype TransferErrorCode = UnsupportedCompression | InternalError

  datatype ManiMessage =
    | Hello(compressionType: CompressionType)
    | PayloadMessage(payload: bytes)
    | NackMessage(sequenceNumbers: seq<u32>)
    | Retrans(sequenceNumber: u32, timestamp: u64, content: bytes)
    | TransferStart(mode: TransferMode, compression: CompressionType, initialSequenceNumber: u32, dataSize: Option<u64>)
    | TransferEnd(finalSequenceNumber: u32)
    | TransferEndAck
    | TransferError(errorCode: TransferErrorCode)
    | EndOfStream
    | CreditsUpdate(additionalCredits: nat)
    | CreditsRequest

  function CompressionByte(c: CompressionType): byte {
    match c case NoCompression => 0 case Gzip => 1 case Zstd => 2 case Lz4 => 3
  }

  function CompressionOf(b: byte): (r: Option<CompressionType>)
    ensures forall c :: r == Some(c) <==> b == CompressionByte(c)
  {
    match b case 0 => Some(NoCompression) case 1 => Some(Gzip) case 2 => Some(Zstd) case 3 => Some(Lz4) case _ => None
  }
}
