/** Result codes of the public calls (efp.h). */
module Results {
  datatype Result =
    | Ok | DuplicateFragment | FragmentTooOld
    | InvalidParameter | FrameSizeMismatch | TooLargeFrame
    | BufferOutOfBounds | BufferOutOfResources | MemoryAllocationError
}
