/**
 * The mount-path classifiers of the WinFsp DLL (FspPathIsDrive,
 * FspPathIsMountmgrMountPoint, FspPathIsMountmgrDrive).
 *
 * Each one indexes a NUL-terminated wide string character by character and
 * short-circuits on the first failed test. The predicates below require only
 * that the buffer holds a terminator; Dafny's bounds checks then show that no
 * index is read unless every character before it is a non-NUL one, and
 * ReadsStopAtTerminator shows the result is the same when the buffer is cut
 * just after its first NUL.
 */
module PathClassifier {
  import opened WideString

  /** ASCII letter test used for drive letters: 'A'..'Z' or 'a'..'z', nothing else. */
  predicate IsAsciiLetter(c: char) {
    ('A' <= c && c <= 'Z') || ('a' <= c && c <= 'z')
  }

  /** The character in the third position of a mount-manager path: `\\?\` or `\\.\`. */
  predicate IsDeviceMarker(c: char) {
    c == '?' || c == '.'
  }

  /** A bare drive specifier such as "E:". */
  predicate IsDrive(s: seq<char>)
    requires Terminated(s)
    ensures IsDrive(s) ==> FirstNul(s) == 2
  {
    IsAsciiLetter(s[0]) && ':' == s[1] && Nul == s[2]
  }

  /** A mount-manager path `\\?\X:...` or `\\.\X:...`; what follows the colon is not examined. */
  predicate IsMountmgrMountPoint(s: seq<char>)
    requires Terminated(s)
    ensures IsMountmgrMountPoint(s) ==> FirstNul(s) >= 6
  {
    ('\\' == s[0] && '\\' == s[1] && IsDeviceMarker(s[2]) && '\\' == s[3]) &&
    IsAsciiLetter(s[4]) &&
    ':' == s[5]
  }

  /** The bare mount-manager drive form `\\?\X:` or `\\.\X:`, nothing after the colon. */
  predicate IsMountmgrDrive(s: seq<char>)
    requires Terminated(s)
    ensures IsMountmgrDrive(s) ==> FirstNul(s) == 6
  {
    IsMountmgrMountPoint(s) && Nul == s[6]
  }

  /** The six characters `\\d\c:` that start a mount-manager path. */
  function MountmgrPrefix(d: char, c: char): seq<char> {
    ['\\', '\\', d, '\\', c, ':']
  }

  /** ASCII upper-casing; every other character is left alone. */
  function AsciiUpper(c: char): (u: char)
    ensures IsAsciiLetter(u) <==> IsAsciiLetter(c)
    ensures u == Nul <==> c == Nul
    ensures 'a' <= c <= 'z' ==> 'A' <= u <= 'Z' && u as int + 32 == c as int
    ensures !('a' <= c <= 'z') ==> u == c
  {
    if 'a' <= c <= 'z' then (c as int - 32) as char else c
  }

  /** The string held is a letter followed by a colon, and nothing else. */
  lemma IsDriveMeaning(s: seq<char>)
    requires Terminated(s)
    ensures IsDrive(s) <==> exists c :: IsAsciiLetter(c) && CStr(s) == [c, ':']
  {
  }

  /** The string held begins with `\\?\X:` or `\\.\X:`; anything may follow. */
  lemma IsMountmgrMountPointMeaning(s: seq<char>)
    requires Terminated(s)
    ensures IsMountmgrMountPoint(s) <==>
      exists d, c :: IsDeviceMarker(d) && IsAsciiLetter(c) &&
        |CStr(s)| >= 6 && CStr(s)[..6] == MountmgrPrefix(d, c)
  {
  }

  /** The string held is exactly `\\?\X:` or `\\.\X:`. */
  lemma IsMountmgrDriveMeaning(s: seq<char>)
    requires Terminated(s)
    ensures IsMountmgrDrive(s) <==>
      exists d, c :: IsDeviceMarker(d) && IsAsciiLetter(c) && CStr(s) == MountmgrPrefix(d, c)
  {
  }

  /** A bare mount-manager drive is in particular a mount-manager mount point. */
  lemma MountmgrDriveIsMountPoint(s: seq<char>)
    requires Terminated(s)
    ensures IsMountmgrDrive(s) ==> IsMountmgrMountPoint(s)
    ensures IsMountmgrDrive(s) <==> IsMountmgrMountPoint(s) && |CStr(s)| == 6
  {
  }

  /** A drive specifier starts with a letter, a mount-manager path with a backslash. */
  lemma DriveExcludesMountmgr(s: seq<char>)
    requires Terminated(s)
    ensures !(IsDrive(s) && IsMountmgrMountPoint(s))
    ensures !(IsDrive(s) && IsMountmgrDrive(s))
  {
  }

  /**
   * The classifiers never look past the first NUL: on the buffer cut just
   * after it they are still well defined (every index they read lies inside
   * the cut buffer) and give the same answers.
   */
  lemma ReadsStopAtTerminator(s: seq<char>)
    requires Terminated(s)
    ensures Terminated(s[..FirstNul(s) + 1])
    ensures IsDrive(s[..FirstNul(s) + 1]) == IsDrive(s)
    ensures IsMountmgrMountPoint(s[..FirstNul(s) + 1]) == IsMountmgrMountPoint(s)
    ensures IsMountmgrDrive(s[..FirstNul(s) + 1]) == IsMountmgrDrive(s)
  {
  }

  /** Two buffers holding the same string are classified alike, whatever follows their terminators. */
  lemma SameStringSameClass(s: seq<char>, s': seq<char>)
    requires Terminated(s) && Terminated(s')
    requires CStr(s) == CStr(s')
    ensures IsDrive(s) == IsDrive(s')
    ensures IsMountmgrMountPoint(s) == IsMountmgrMountPoint(s')
    ensures IsMountmgrDrive(s) == IsMountmgrDrive(s')
  {
  }

  /** Characters from index 6 onward do not affect the mount-point test. */
  lemma MountPointIgnoresTail(s: seq<char>, s': seq<char>)
    requires Terminated(s) && Terminated(s')
    requires |s| >= 6 && |s'| >= 6 && s[..6] == s'[..6]
    ensures IsMountmgrMountPoint(s) == IsMountmgrMountPoint(s')
  {
  }

  /** The drive-letter tests ignore case: upper-casing the letter position changes nothing. */
  lemma LetterTestsIgnoreCase(s: seq<char>)
    requires Terminated(s)
    ensures Terminated(s[0 := AsciiUpper(s[0])])
    ensures IsDrive(s[0 := AsciiUpper(s[0])]) == IsDrive(s)
    ensures |s| > 4 ==>
      Terminated(s[4 := AsciiUpper(s[4])]) &&
      IsMountmgrMountPoint(s[4 := AsciiUpper(s[4])]) == IsMountmgrMountPoint(s) &&
      IsMountmgrDrive(s[4 := AsciiUpper(s[4])]) == IsMountmgrDrive(s)
  {
    var k :| 0 <= k < |s| && s[k] == Nul;
    assert s[0 := AsciiUpper(s[0])][k] == Nul;
    if |s| > 4 {
      assert s[4 := AsciiUpper(s[4])][k] == Nul;
    }
  }

  /** A character outside 'A'..'Z' and 'a'..'z' in a letter position makes the test false. */
  lemma NonLetterRejected(s: seq<char>)
    requires Terminated(s)
    ensures !IsAsciiLetter(s[0]) ==> !IsDrive(s)
    ensures |s| > 4 && !IsAsciiLetter(s[4]) ==> !IsMountmgrMountPoint(s) && !IsMountmgrDrive(s)
  {
  }

  /** Sample classifications: `E:`, `E:\`, `E`, `\\?\E:`, `\\.\E:\subdir`. */
  lemma Scenarios()
    ensures IsDrive("E:\0") && !IsDrive("E:\\\0") && !IsDrive("E\0")
    ensures IsMountmgrDrive("\\\\?\\E:\0")
    ensures IsMountmgrMountPoint("\\\\.\\E:\\subdir\0") && !IsMountmgrDrive("\\\\.\\E:\\subdir\0")
    ensures !IsMountmgrMountPoint("E:\0") && !IsDrive("\\\\?\\E:\0")
  {
  }
}
