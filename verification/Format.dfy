/** Sizes and codes of the archive format that several components share (archive/format.go,
    archive/codec.go, archive/incremental.go, archive/signature.go). */
module Format {
  import opened Bytes

  const ENTRY_END: byte := 0

  const CODEC_NONE: byte := 0
  const CODEC_ZSTD: byte := 1

  const HMAC_SIZE := 32
  const RESERVED_SIZE := 32
  const FOOTER_SIZE := HMAC_SIZE + RESERVED_SIZE

  const STATE_SIZE := 128
  const CHECKPOINT_SIZE := 1 + 8 + 8 + 2 + STATE_SIZE
  const TAIL_SIZE := CHECKPOINT_SIZE + 1 + FOOTER_SIZE

  const SIGNATURE_TRAILER_SIZE := 4 + 8
  const MAX_SIGNATURE_SIZE := 16 * 1024

  type SignatureSize = x: nat | 0 < x <= MAX_SIGNATURE_SIZE witness 1
}
