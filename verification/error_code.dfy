/** The result codes the engine returns. */
module ErrorCodes {
  datatype ErrorCode =
    | Ok
    | CodeError
    | BlockSizeIllegal
    | BlockDataIllegal
    | BlockMagicIllegal
    | BlockCrcMismatch
    | NotBlockAligned
    | IoReadAtFailed
    | IoWriteAtFailed
    | FsInitFailed
    | FsFull
    | InternalError
    | ExtentAlreadyExists
    | ExtentNotExists

  /** Which text of a function is meant: the source's own, or the one its surroundings call for. */
  datatype Form = AsWritten | Repaired
}
