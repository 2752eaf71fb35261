/** Values shared by every part of the WebDAV music plugin model: the entries a
    WebDAV server lists, the music records handed to the host, and the tag
    record the metadata parser produces. */
module Common {

  datatype Option<+T> = None | Some(value: T)

  /** A path on the WebDAV server, as the server spells it. */
  type Path = string

  /** The two kinds of entry a directory listing reports. */
  datatype EntryKind = FileKind | DirectoryKind

  /** One entry of a directory listing: its full path (`filename`), its last
      path segment (`basename`), its kind and the MIME type the server
      reports, when it reports one. */
  datatype Entry = Entry(filename: Path, basename: string, kind: EntryKind, mime: Option<string>)

  /** The record the host receives for one song. Minimal records carry no
      duration; enriched records always carry one. */
  datatype MusicRecord = MusicRecord(
    title: string,
    artist: string,
    album: string,
    duration: Option<int>,
    id: Path)

  /** What the metadata parser extracts from the head of a file. Absent tags
      are `None`; durations are whole numbers in this model. */
  datatype Tags = Tags(title: Option<string>, artist: Option<string>, album: Option<string>, duration: Option<int>)

  /** Placeholder artist ("unknown artist"). */
  const UnknownArtist: string := "未知作者"
  /** Placeholder album ("unknown album"). */
  const UnknownAlbum: string := "未知专辑"

  /** The record used wherever no metadata is available: the file name as the
      title, the placeholders, and no duration. */
  function Minimal(e: Entry): MusicRecord
  {
    MusicRecord(e.basename, UnknownArtist, UnknownAlbum, None, e.filename)
  }

  /** The records without metadata: `{title: basename, id: filename,
      artist, album}` for each file, in order. */
  function MapMinimal(files: seq<Entry>): seq<MusicRecord>
  {
    seq(|files|, i requires 0 <= i < |files| => Minimal(files[i]))
  }
}
