# WinFsp DLL library helpers — a Dafny model

This project models the inline helpers that the WinFsp user-mode DLL defines in
`src/dll/library.h`:

- the three mount-path classifiers used to decide how a volume is registered
  with the Windows mount manager: `FspPathIsDrive` (a bare drive specifier such
  as `E:`), `FspPathIsMountmgrMountPoint` (a `\\?\X:` or `\\.\X:` path with
  anything after the colon) and `FspPathIsMountmgrDrive` (that form with
  nothing after the colon);
- the extended-attribute chain step `FSP_NEXT_EA`, which moves from one
  `FILE_FULL_EA_INFORMATION` record to the next, and the walk
  `for (; Ea < EaEnd; Ea = FSP_NEXT_EA(Ea, EaEnd))` built from it;
- `FspPathSuffixIndex`, which splits a path buffer at its last component with
  `FspPathSuffix`, computes the component's index, and restores the buffer with
  `FspPathCombine`;
- the directory-buffer sentinel `FspFileSystemDirectoryBufferEntryInvalid`,
  recorded as `DirectoryBuffer.EntryInvalid`.

Files:

- `wide_string.dfy` (`WideString`): NUL-terminated wide strings as
  `seq<char>`. `Terminated(s)` says the buffer holds a NUL; `FirstNul` is the
  string's length (what `wcslen` computes); `CStr(s)` is the string the buffer
  holds.
- `path_classifier.dfy` (`PathClassifier`): the three classifiers, written as
  the same short-circuiting conjunctions over buffer indices, and their
  properties. Each classifier requires only `Terminated(s)`. Dafny checks
  every index the classifier reads against that requirement alone. So a read
  is reached only when every earlier character is a non-NUL one.
  `ReadsStopAtTerminator` adds that the answers are unchanged when the buffer
  is cut just after its first NUL.
- `extended_attributes.dfy` (`ExtendedAttributes`): the EA list as a byte
  sequence. Pointers are byte offsets into it. `NextEntryOffset` decodes the
  record's leading 32-bit little-endian field. `NextEa` is `FSP_NEXT_EA`.
  `Walk` is the list of records a `pos < end` walk visits. Its termination
  proof rests on `NextEa` moving strictly forward.
- `path_suffix.dfy` (`PathSuffix`): `PathSuffixIndex` as a method over the
  caller's `array<char>`. It calls `PathSuffix` (writes a NUL at the split)
  and `PathCombine` (restores it). `SuffixSplit`/`SuffixIndex` specify them
  on the string.
- `directory_buffer.dfy` (`DirectoryBuffer`): the sentinel value, as the nullary function `EntryInvalid`.

`FspPathSuffix` and `FspPathCombine` are declared in `winfsp/winfsp.h`;
library.h does not define them. They are modelled by the behaviour
`FspPathSuffixIndex` relies on. `PathSuffix` scans the string for the last run
of `\` separators, and Suffix starts just after that run. If the run begins at
index 0, Remain is the caller's `Root` string; the model then leaves the buffer
unwritten (see "## Left out"). Otherwise the first separator of the run becomes
a NUL and Remain is the buffer. With no separator, Remain is the whole path and
Suffix is its terminator. `PathCombine` turns every NUL before Suffix back into
a separator.

`FSP_NEXT_EA` does not check that the offset stays inside the list: it jumps
wherever the offset points, and the `Ea < EaEnd` guard ends the walk;
rejecting such a list is the caller's job.

## Model

| member | source | states |
|---|---|---|
| `PathClassifier.IsDrive` | src/dll/library.h:144-152 | `FspPathIsDrive`: the same short-circuit conjunction over indices 0, 1, 2, defined for every buffer that holds a NUL; when it holds, the string's length is 2 |
| `PathClassifier.IsMountmgrMountPoint` | src/dll/library.h:153-167 | `FspPathIsMountmgrMountPoint`: the same short-circuit conjunction over indices 0 to 5, defined for every buffer that holds a NUL; when it holds, the string has at least 6 characters |
| `PathClassifier.IsMountmgrDrive` | src/dll/library.h:168-173 | `FspPathIsMountmgrDrive`: the mount-point test and then a NUL at index 6, defined for every buffer that holds a NUL; when it holds, the string's length is 6 |
| `PathClassifier.IsDriveMeaning` | src/dll/library.h:144-152 | `FspPathIsDrive` holds exactly when the string is an ASCII letter followed by `:` and nothing more |
| `PathClassifier.IsMountmgrMountPointMeaning` | src/dll/library.h:153-167 | `FspPathIsMountmgrMountPoint` holds exactly when the string has at least six characters beginning `\\?\X:` or `\\.\X:` with X an ASCII letter |
| `PathClassifier.IsMountmgrDriveMeaning` | src/dll/library.h:168-173 | `FspPathIsMountmgrDrive` holds exactly when the string is `\\?\X:` or `\\.\X:` and nothing more |
| `PathClassifier.MountmgrDriveIsMountPoint` | src/dll/library.h:168-173 | a mount-manager drive is a mount-manager mount point, and it is exactly a mount point whose string has length 6 |
| `PathClassifier.DriveExcludesMountmgr` | src/dll/library.h:148-149 | no string is both a drive specifier and a mount-manager path (index 0 is a letter in one and a backslash in the other) |
| `PathClassifier.ReadsStopAtTerminator` | src/dll/library.h:144-173 | each classifier is defined on the buffer cut just after its first NUL and gives the same answer there, so it never reads past the terminator |
| `PathClassifier.SameStringSameClass` | src/dll/library.h:144-173 | the classifiers depend only on the characters before the first NUL |
| `PathClassifier.MountPointIgnoresTail` | src/dll/library.h:153-167 | characters from index 6 on do not affect `FspPathIsMountmgrMountPoint` |
| `PathClassifier.LetterTestsIgnoreCase` | src/dll/library.h:147-150 | upper-casing the drive-letter position leaves every classifier's answer unchanged |
| `PathClassifier.NonLetterRejected` | src/dll/library.h:163-165 | a character outside `A..Z` and `a..z` in the letter position makes the classifier false |
| `PathClassifier.Scenarios` | src/dll/library.h:144-173 | `E:` is a drive; `E:\` and `E` are not; `\\?\E:` is a mount-manager drive; `\\.\E:\subdir` is a mount point but not a drive |
| `DirectoryBuffer.EntryInvalid` | src/dll/library.h:124 | `FspFileSystemDirectoryBufferEntryInvalid` is `(ULONG)-1`: -1 reduced modulo 2^32, the largest 32-bit unsigned value |
| `ExtendedAttributes.NextEntryOffset` | src/dll/library.h:176 | the record's NextEntryOffset is an unsigned 32-bit value, zero exactly when its four bytes are zero |
| `ExtendedAttributes.NextEa` | src/dll/library.h:175-176 | `FSP_NEXT_EA` yields `EaEnd` for a zero offset and `Ea + NextEntryOffset` otherwise; from a record before `EaEnd` it moves strictly forward |
| `ExtendedAttributes.Walk` | src/dll/library.h:175-176 | a walk guarded by `Ea < EaEnd` terminates; its records lie in `[Ea, EaEnd)`, strictly increase, and number at most `EaEnd - Ea` |
| `ExtendedAttributes.WalkFollowsLinks` | src/dll/library.h:175-176 | the walk starts at the first record, follows each nonzero offset, and stops after a record whose offset is zero or reaches `EaEnd` |
| `ExtendedAttributes.ZeroOffsetEndsWalk` | src/dll/library.h:175-176 | a record with offset zero is the last one visited |
| `PathSuffix.LastSeparatorEnd` | src/dll/library.h:137 | the index after the last separator: everything from there on is separator-free |
| `PathSuffix.RunStart` | src/dll/library.h:137 | the start of the separator run before an index: every character between is a separator and the one before it is not |
| `PathSuffix.SuffixSplit` | src/dll/library.h:137 | Suffix lies within the string, and a NUL is written only on a separator strictly between index 0 and Suffix |
| `PathSuffix.SuffixIndex` | src/dll/library.h:138 | the index lies within the string; when nonzero, no separator follows it, and it follows a separator or is the end of a separator-free path |
| `PathSuffix.SuffixIndexZero` | src/dll/library.h:138 | the index is 0 exactly for the empty path and for a path that starts with a separator and whose separators all belong to that leading run |
| `PathSuffix.SuffixIndexNoSeparator` | src/dll/library.h:137-138 | with no separator, Remain is the whole path and the index is the path's length |
| `PathSuffix.SuffixIndexRootChild` | src/dll/library.h:137-138 | a path of leading separators and a name splits at the root sentinel and gives index 0 |
| `PathSuffix.SuffixIndexChild` | src/dll/library.h:137-138 | parent, separator and name gives the index where the name starts, with the NUL after the parent's last non-separator |
| `PathSuffix.SplitViews` | src/dll/library.h:137 | after the split the buffer holds the parent path up to the NUL and, from Suffix, the separator-free last component |
| `PathSuffix.CombineUndoesRootWrite` | src/dll/library.h:137-139 | in the Root case, a split that did write a NUL on the leading separator is undone by the combine as well, so the index and the restored buffer do not depend on whether that write happens |
| `PathSuffix.CombineUndoesSplit` | src/dll/library.h:137-139 | combining at Suffix after the split gives back the original buffer |
| `PathSuffix.PathSuffix` | src/dll/library.h:137 | the split: returns whether Remain is Root and where Suffix is, and writes exactly the specified NUL |
| `PathSuffix.PathCombine` | src/dll/library.h:139 | every NUL before Suffix becomes a separator, and nothing else changes |
| `PathSuffix.PathSuffixIndex` | src/dll/library.h:131-142 | returns 0 for the Root sentinel and Suffix - Remain otherwise, and the buffer holds its original contents on return |

## Left out

- `FSP_ADAPTIVE_LOCK`, `FspAdaptiveLockAcquire` and `FspAdaptiveLockRelease` (lines 109-122): only declared here, and they are about concurrency (an SRW lock and an OS wait handle).
- The mount-manager calls `FspMountmgrCreateDrive`, `FspMountmgrDeleteDrive`, `FspMountmgrNotifyCreateDirectory` and `FspMountmgrNotifyDeleteDirectory` (lines 79-86): foreign OS calls, declared only. No mount lifecycle state machine appears in this source, so none is modelled.
- `FspFileSystemPeekInDirectoryBuffer` (lines 125-126): declared only; the directory buffer it reads is not part of this model. Only the sentinel value is recorded.
- LDAP client, well-known SID cache, event log, service stop loop and console handler, SxS suffix helpers, module version and path queries, and the finalize and register entry points (lines 58-107, 128-129): OS plumbing and I/O, declared only.
- `DEBUGLOG*` and `DEBUGTEST` (lines 35-56): diagnostics and a random source.
- `PathSuffix.PathSuffix`: in the Root case (the last separator run starts at index 0) the model does not write to the buffer; this is a modelling choice, since library.h only needs `Remain == Root` there and the combine restores any NUL before Suffix (`PathSuffix.CombineUndoesRootWrite`).
- The bodies of `FspPathSuffix` and `FspPathCombine`: `winfsp/winfsp.h` and their definitions are not part of this model. `PathSuffix.PathSuffix` and `PathSuffix.PathCombine` implement the split-and-restore behaviour described above.
- Pointer width and wrap-around: `Ea + NextEntryOffset` and `Suffix - Remain` are unbounded naturals. The `(ULONG)` cast in `FspPathSuffixIndex` is not modelled; the model's index equals the C result only for paths shorter than 2^32 code units.
- `WCHAR`: a buffer element stands for one 16-bit code unit, and indices such as `FspPathSuffixIndex`'s result count code units. Dafny's `char` excludes the surrogate range 0xD800-0xDFFF, so a surrogate code unit is represented by some other non-ASCII, non-NUL `char`; since every test compares only with ASCII characters and NUL, no result depends on which.
- `ExtendedAttributes.Walk`: requires `Readable`, i.e. every record the walk reaches has its 4-byte offset field inside the buffer. The macro itself does not check this; a list violating it makes the C walk read out of bounds.
