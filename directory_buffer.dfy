/**
 * The directory-buffer sentinel of the WinFsp DLL. The directory buffer
 * itself (FspFileSystemPeekInDirectoryBuffer and the code behind it) is not
 * part of this model.
 */
module DirectoryBuffer {

  /** FspFileSystemDirectoryBufferEntryInvalid: (ULONG)-1, the largest 32-bit unsigned value. */
  function EntryInvalid(): (v: nat)
    ensures v == (-1) % 0x1_0000_0000
    ensures v + 1 == 0x1_0000_0000
  {
    0xFFFF_FFFF
  }
}
