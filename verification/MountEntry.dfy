/** One entry of a mount table. */
module MountEntry {
  datatype MountInfoEntry = MountInfoEntry(
    id: int, parent: int, major: int, minor: int,
    root: string, target: string, vfsOptstr: string,
    optFields: seq<string>, fsType: string, source: string, fsOptstr: string)
}
