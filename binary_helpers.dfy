/** Resolution of a pointer out of a decoded (virtual) file into the ROM. */
module BinaryHelpers {
  import opened Binary

  /** GetROMPointer: a pointer into a virtual file stands for the pointer the
      file was decoded from; any other pointer already points into the ROM. */
  function GetRomPointer(p: Pointer): (r: Pointer)
    ensures !p.file.VirtualFile? ==> r == p
    ensures p.file.VirtualFile? ==> r == p.file.parentPointer
  {
    match p.file
    case VirtualFile(_, parent) => parent
    case RomFile => p
  }

  /** Every pointer into the same virtual file resolves to the same place,
      whatever its offset inside that file. */
  lemma SameFileSameRomPointer(p: Pointer, q: Pointer)
    requires p.file == q.file && p.file.VirtualFile?
    ensures GetRomPointer(p) == GetRomPointer(q)
  {
  }

  /** Resolution is one level deep: a parent pointer that is itself inside a
      virtual file comes back unresolved. */
  lemma OneLevelOnly(p: Pointer)
    requires p.file.VirtualFile? && p.file.parentPointer.file.VirtualFile?
    ensures GetRomPointer(p).file.VirtualFile?
    ensures GetRomPointer(GetRomPointer(p)) == p.file.parentPointer.file.parentPointer
  {
  }

  /** When the parent of a virtual file is in the ROM, one resolution reaches
      the ROM, and resolving again changes nothing. */
  lemma ResolvedIsFixed(p: Pointer)
    requires p.file.VirtualFile? ==> p.file.parentPointer.file.RomFile?
    ensures GetRomPointer(p).file.RomFile?
    ensures GetRomPointer(GetRomPointer(p)) == GetRomPointer(p)
  {
  }
}
