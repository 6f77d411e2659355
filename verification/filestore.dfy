/** The file store: a map from relpath to file entry, plus attachments keyed
    by content hash and kind.

    A file entry holds the metadata of one cache slot (declared md5, source
    url, egg fragment, size and the stored response headers) and, once the
    bytes are cached, its content. Metadata may exist without content; the
    content is present exactly when `FileExists` holds. The state is an
    immutable value and every operation returns the next state, so a
    transaction restart, which re-reads committed state, is a lookup in the
    same value. */
module Filestore {
  import opened Wrappers
  import opened Strings
  import Links

  newtype Byte = b: int | 0 <= b < 256
  type Bytes = seq<Byte>

  /** Response headers; a header whose value is `None` is an absent key. */
  type Headers = map<string, string>

  /** The MD5 hex digest of some bytes; the algorithm itself is not modelled,
      so operations that hash take it as a parameter. */
  type Digest = Bytes -> string

  const ContentLengthHeader: string := "content-length"
  const LastModifiedHeader: string := "last-modified"

  /** Metadata of one cache slot and its optional bytes. */
  datatype FileEntry = FileEntry(
    md5: string,
    url: string,
    eggfragment: string,
    size: Option<nat>,
    headers: Headers,
    content: Option<Bytes>)

  /** The entry a relpath without any stored metadata reads as. */
  const FreshEntry: FileEntry := FileEntry("", "", "", None, map[], None)

  type AttachmentKey = (string, string)

  datatype FileStore = FileStore(
    entries: map<string, FileEntry>,
    attachments: map<AttachmentKey, seq<string>>)

  const EmptyStore: FileStore := FileStore(map[], map[])

  /** A store together with the relpath an operation resolved. */
  datatype Mapped = Mapped(store: FileStore, relpath: string)

  /** A store together with the number an attachment was given. */
  datatype Attached = Attached(store: FileStore, num: nat)

  /** `FileEntry(key)`: the entry stored at `relpath`, or a fresh one. */
  function Lookup(fs: FileStore, relpath: string): FileEntry
  {
    if relpath in fs.entries then fs.entries[relpath] else FreshEntry
  }

  /** `entry.file_exists()`: only a stored entry can have bytes. */
  predicate FileExists(fs: FileStore, relpath: string)
    ensures FileExists(fs, relpath) <==>
      GetFileEntry(fs, relpath).Some? && GetFileEntry(fs, relpath).value.content.Some?
  {
    Lookup(fs, relpath).content.Some?
  }

  /** `get_file_entry(relpath)`: the stored entry, `None` when there is none;
      a relpath without an entry reads as a fresh one. */
  function GetFileEntry(fs: FileStore, relpath: string): (r: Option<FileEntry>)
    ensures r.Some? <==> relpath in fs.entries
    ensures r.Some? ==> r.value == Lookup(fs, relpath)
    ensures r.None? ==> Lookup(fs, relpath) == FreshEntry
  {
    if relpath in fs.entries then Some(fs.entries[relpath]) else None
  }

  /** Every cached entry records the length of its bytes as its size. */
  predicate SizesMatch(fs: FileStore)
  {
    forall k :: k in fs.entries && fs.entries[k].content.Some? ==>
      fs.entries[k].size == Some(|fs.entries[k].content.value|)
  }

  /** `entry.basename`: the last segment of the entry's relpath. */
  function EntryBasename(relpath: string): string
  {
    LastSegment(relpath)
  }

  /** `entry.last_modified`, as recorded from the `last-modified` header. */
  function LastModified(e: FileEntry): Option<string>
  {
    if LastModifiedHeader in e.headers then Some(e.headers[LastModifiedHeader]) else None
  }

  /** The size a header set declares: `None` when `content-length` is absent
      or is not a decimal number. */
  function DeclaredLength(headers: Headers): Option<nat>
  {
    if ContentLengthHeader in headers then ParseNat(headers[ContentLengthHeader]) else None
  }

  /** Writes one entry; everything else stays as it was. */
  function Put(fs: FileStore, relpath: string, e: FileEntry): FileStore
  {
    fs.(entries := fs.entries[relpath := e])
  }

  /** The entry with its bytes and their size removed. */
  function Uncached(e: FileEntry): FileEntry
  {
    e.(content := None, size := None)
  }

  /** `maplink(link)`: resolves the link's relpath, records its url and egg
      fragment, and adopts its declared md5; when the declared md5 differs
      from the recorded one, cached bytes are dropped first. */
  function MapLink(fs: FileStore, stage: Links.Stage, link: Links.Link): (r: Mapped)
    ensures r.relpath == Links.Relpath(stage, link)
    ensures r.relpath in r.store.entries
    ensures Lookup(r.store, r.relpath).url == Links.NoFrag(link)
    ensures Lookup(r.store, r.relpath).eggfragment == Links.EggFragment(link)
    ensures Lookup(r.store, r.relpath).md5 == Links.Md5(link)
    ensures Lookup(r.store, r.relpath).headers == Lookup(fs, r.relpath).headers
    // bytes survive a re-map only when the link declares the md5 already
    // recorded at the slot ...
    ensures FileExists(r.store, r.relpath) ==>
      FileExists(fs, r.relpath) && Lookup(fs, r.relpath).md5 == Links.Md5(link)
    // ... and are then kept, together with their size
    ensures Lookup(fs, r.relpath).md5 == Links.Md5(link) ==>
      && Lookup(r.store, r.relpath).content == Lookup(fs, r.relpath).content
      && Lookup(r.store, r.relpath).size == Lookup(fs, r.relpath).size
    ensures r.store.entries - {r.relpath} == fs.entries - {r.relpath}
    ensures r.store.attachments == fs.attachments
  {
    var relpath := Links.Relpath(stage, link);
    Mapped(Put(fs, relpath, Remapped(Lookup(fs, relpath), link)), relpath)
  }

  /** The entry `maplink` leaves at a link's slot, given the one it found. */
  function Remapped(prev: FileEntry, link: Links.Link): (e: FileEntry)
    ensures e.url == Links.NoFrag(link)
    ensures e.eggfragment == Links.EggFragment(link)
    ensures e.md5 == Links.Md5(link)
    ensures e.headers == prev.headers
    ensures e.content.Some? ==> prev.content.Some? && prev.md5 == Links.Md5(link)
    ensures prev.md5 == Links.Md5(link) ==> e.content == prev.content && e.size == prev.size
  {
    var md5 := Links.Md5(link);
    var e := prev.(url := Links.NoFrag(link), eggfragment := Links.EggFragment(link));
    if md5 == prev.md5 then e
    else if prev.content.Some? then Uncached(e).(md5 := md5)
    else e.(md5 := md5)
  }

  /** `entry.set(md5=..., url=..., eggfragment=...)`: updates the given
      metadata fields and never the content. */
  function SetFields(fs: FileStore, relpath: string, md5: Option<string>, url: Option<string>,
                     eggfragment: Option<string>): (r: FileStore)
    ensures relpath in r.entries
    ensures Lookup(r, relpath).content == Lookup(fs, relpath).content
    ensures Lookup(r, relpath).size == Lookup(fs, relpath).size
    ensures Lookup(r, relpath).headers == Lookup(fs, relpath).headers
    ensures md5.Some? ==> Lookup(r, relpath).md5 == md5.value
    ensures md5.None? ==> Lookup(r, relpath).md5 == Lookup(fs, relpath).md5
    ensures url.Some? ==> Lookup(r, relpath).url == url.value
    ensures url.None? ==> Lookup(r, relpath).url == Lookup(fs, relpath).url
    ensures eggfragment.Some? ==> Lookup(r, relpath).eggfragment == eggfragment.value
    ensures eggfragment.None? ==> Lookup(r, relpath).eggfragment == Lookup(fs, relpath).eggfragment
    ensures r.entries - {relpath} == fs.entries - {relpath}
    ensures r.attachments == fs.attachments
  {
    var e := Lookup(fs, relpath);
    Put(fs, relpath, e.(md5 := md5.GetOr(e.md5), url := url.GetOr(e.url),
                        eggfragment := eggfragment.GetOr(e.eggfragment)))
  }

  /** `entry.set_file_content(content)`: stores the bytes directly, bypassing
      fetch and verification; the md5, url and egg fragment stay as recorded. */
  function SetFileContent(fs: FileStore, relpath: string, content: Bytes): (r: FileStore)
    ensures FileExists(r, relpath)
    ensures Lookup(r, relpath).content == Some(content)
    ensures Lookup(r, relpath).size == Some(|content|)
    ensures Lookup(r, relpath).md5 == Lookup(fs, relpath).md5
    ensures Lookup(r, relpath).url == Lookup(fs, relpath).url
    ensures Lookup(r, relpath).eggfragment == Lookup(fs, relpath).eggfragment
    ensures Lookup(r, relpath).headers == Lookup(fs, relpath).headers
    ensures r.entries - {relpath} == fs.entries - {relpath}
    ensures r.attachments == fs.attachments
  {
    var e := Lookup(fs, relpath);
    Put(fs, relpath, e.(content := Some(content), size := Some(|content|)))
  }

  /** `entry.sethttpheaders(headers)`: records the response headers and the
      size they declare, which is unknown (`None`) without a `content-length`. */
  function SetHttpHeaders(fs: FileStore, relpath: string, headers: Headers): (r: FileStore)
    ensures Lookup(r, relpath).headers == headers
    ensures ContentLengthHeader !in headers ==> Lookup(r, relpath).size.None?
    ensures forall n: nat ::
              (ContentLengthHeader in headers && headers[ContentLengthHeader] == NatToString(n)
               ==> Lookup(r, relpath).size == Some(n))
    ensures Lookup(r, relpath).content == Lookup(fs, relpath).content
    ensures Lookup(r, relpath).md5 == Lookup(fs, relpath).md5
    ensures Lookup(r, relpath).url == Lookup(fs, relpath).url
    ensures Lookup(r, relpath).eggfragment == Lookup(fs, relpath).eggfragment
    ensures r.entries - {relpath} == fs.entries - {relpath}
    ensures r.attachments == fs.attachments
  {
    var e := Lookup(fs, relpath);
    var r := Put(fs, relpath, e.(headers := headers, size := DeclaredLength(headers)));
    assert forall n: nat ::
             (ContentLengthHeader in headers && headers[ContentLengthHeader] == NatToString(n)
              ==> DeclaredLength(headers) == Some(n)) by {
      forall n: nat | ContentLengthHeader in headers && headers[ContentLengthHeader] == NatToString(n)
        ensures DeclaredLength(headers) == Some(n)
      {
        ParseNatToString(n);
      }
    }
    r
  }

  /** `entry.file_delete()`: removes the bytes and their size only; the md5,
      url, egg fragment and headers stay, so the slot can be fetched again. */
  function FileDelete(fs: FileStore, relpath: string): (r: FileStore)
    ensures !FileExists(r, relpath)
    ensures Lookup(r, relpath).size.None?
    ensures Lookup(r, relpath).headers == Lookup(fs, relpath).headers
    ensures (relpath in r.entries) == (relpath in fs.entries)
    ensures Lookup(r, relpath).md5 == Lookup(fs, relpath).md5
    ensures Lookup(r, relpath).url == Lookup(fs, relpath).url
    ensures Lookup(r, relpath).eggfragment == Lookup(fs, relpath).eggfragment
    ensures r.entries - {relpath} == fs.entries - {relpath}
    ensures r.attachments == fs.attachments
  {
    if relpath in fs.entries then Put(fs, relpath, Uncached(fs.entries[relpath])) else fs
  }

  /** `entry.delete()`: removes metadata and bytes; the relpath is then unknown. */
  function Delete(fs: FileStore, relpath: string): (r: FileStore)
    ensures GetFileEntry(r, relpath).None?
    ensures !FileExists(r, relpath)
    ensures r.entries.Keys == fs.entries.Keys - {relpath}
    ensures forall k :: k in r.entries ==> r.entries[k] == fs.entries[k]
    ensures r.attachments == fs.attachments
  {
    fs.(entries := fs.entries - {relpath})
  }

  /** The relpath of a file pushed directly to a stage: `user/index/basename`. */
  function StoreRelpath(user: string, index: string, basename: string): string
  {
    Join([user, index, basename])
  }

  /** `store(user, index, basename, content)`: a direct push. The md5 is
      computed from the content, the bytes are stored, and the push time is
      recorded as `last-modified`. */
  function Store(fs: FileStore, user: string, index: string, basename: string, content: Bytes,
                 md5: Digest, now: string): (r: Mapped)
    ensures r.relpath == StoreRelpath(user, index, basename)
    ensures FileExists(r.store, r.relpath)
    ensures Lookup(r.store, r.relpath).content == Some(content)
    ensures Lookup(r.store, r.relpath).md5 == md5(content)
    ensures Lookup(r.store, r.relpath).size == Some(|content|)
    ensures LastModified(Lookup(r.store, r.relpath)) == Some(now)
    ensures DeclaredLength(Lookup(r.store, r.relpath).headers) == Some(|content|)
    ensures r.store.entries - {r.relpath} == fs.entries - {r.relpath}
    ensures r.store.attachments == fs.attachments
  {
    var relpath := StoreRelpath(user, index, basename);
    var headers := map[ContentLengthHeader := NatToString(|content|), LastModifiedHeader := now];
    ParseNatToString(|content|);
    var e := FileEntry(md5(content), "", "", Some(|content|), headers, Some(content));
    Mapped(Put(fs, relpath, e), relpath)
  }

  /** The attachments stored so far under `(md5, kind)`. */
  function Attachments(fs: FileStore, md5: string, kind: string): seq<string>
  {
    if (md5, kind) in fs.attachments then fs.attachments[(md5, kind)] else []
  }

  /** `add_attachment(md5, kind, data)`: appends `data` under `(md5, kind)`
      and returns its number, the count of attachments stored there before. */
  function AddAttachment(fs: FileStore, md5: string, kind: string, data: string): (r: Attached)
    ensures r.num == |Attachments(fs, md5, kind)|
    ensures Attachments(r.store, md5, kind) == Attachments(fs, md5, kind) + [data]
    ensures forall m, k :: (m, k) != (md5, kind) ==> Attachments(r.store, m, k) == Attachments(fs, m, k)
    ensures r.store.entries == fs.entries
  {
    var existing := Attachments(fs, md5, kind);
    Attached(fs.(attachments := fs.attachments[(md5, kind) := existing + [data]]), |existing|)
  }

  /** `get_attachment(md5, kind, num)`: the attachment numbered `num`, `None`
      when no such number was handed out. */
  function GetAttachment(fs: FileStore, md5: string, kind: string, num: nat): (r: Option<string>)
    ensures r.Some? <==> num < |Attachments(fs, md5, kind)|
    ensures r.Some? ==> r.value == Attachments(fs, md5, kind)[num]
  {
    var stored := Attachments(fs, md5, kind);
    if num < |stored| then Some(stored[num]) else None
  }

  /** Mapping the same link again changes nothing: the same relpath and the
      same (equal) entry. */
  lemma MapLinkIdempotent(fs: FileStore, stage: Links.Stage, link: Links.Link)
    ensures var m := MapLink(fs, stage, link);
      MapLink(m.store, stage, link) == m
  {
    var m := MapLink(fs, stage, link);
    var m' := MapLink(m.store, stage, link);
    assert Lookup(m'.store, m.relpath) == Lookup(m.store, m.relpath);
    assert m'.store.entries == m.store.entries;
  }

  /** The entry a link maps to is named after the link's basename, and its
      relpath ends in `/basename`. */
  lemma MapLinkBasename(fs: FileStore, stage: Links.Stage, link: Links.Link)
    requires Links.ValidStage(stage)
    requires Sep !in Links.Md5(link)
    ensures var m := MapLink(fs, stage, link);
      && EntryBasename(m.relpath) == Links.Basename(link)
      && EndsWith(m.relpath, [Sep] + Links.Basename(link))
  {
    Links.RelpathBasename(stage, link);
  }

  /** Mapping a link whose declared md5 differs from the one recorded at its
      slot yields an entry without bytes, whether or not bytes were cached. */
  lemma MapLinkChangedMd5Uncached(fs: FileStore, stage: Links.Stage, link: Links.Link)
    requires Lookup(fs, Links.Relpath(stage, link)).md5 != Links.Md5(link)
    ensures var m := MapLink(fs, stage, link);
      && !FileExists(m.store, m.relpath)
      && Lookup(m.store, m.relpath).md5 == Links.Md5(link)
  {
  }

  /** A pushed file reads back under its basename when the names are
      separator-free. */
  lemma StoreBasename(fs: FileStore, user: string, index: string, basename: string, content: Bytes,
                      md5: Digest, now: string)
    requires Sep !in user && Sep !in index && Sep !in basename
    ensures EntryBasename(Store(fs, user, index, basename, content, md5, now).relpath) == basename
  {
    SplitJoin([user, index, basename]);
  }

  /** `get_attachment(md5, kind, add_attachment(md5, kind, data))` is `data`,
      and the attachments numbered before are untouched. */
  lemma AttachmentRoundTrip(fs: FileStore, md5: string, kind: string, data: string)
    ensures var a := AddAttachment(fs, md5, kind, data);
      && GetAttachment(a.store, md5, kind, a.num) == Some(data)
      && GetAttachment(a.store, md5, kind, a.num + 1).None?
      && forall i: nat :: i < a.num ==> GetAttachment(a.store, md5, kind, i) == GetAttachment(fs, md5, kind, i)
  {
  }

  /** `maplink` keeps every cached entry's size equal to its bytes' length. */
  lemma MapLinkKeepsSizes(fs: FileStore, stage: Links.Stage, link: Links.Link)
    requires SizesMatch(fs)
    ensures SizesMatch(MapLink(fs, stage, link).store)
  {
  }

  /** `set` keeps every cached entry's size equal to its bytes' length. */
  lemma SetFieldsKeepsSizes(fs: FileStore, relpath: string, md5: Option<string>,
                            url: Option<string>, eggfragment: Option<string>)
    requires SizesMatch(fs)
    ensures SizesMatch(SetFields(fs, relpath, md5, url, eggfragment))
  {
  }

  /** `set_file_content` keeps every cached entry's size equal to its bytes' length. */
  lemma SetFileContentKeepsSizes(fs: FileStore, relpath: string, content: Bytes)
    requires SizesMatch(fs)
    ensures SizesMatch(SetFileContent(fs, relpath, content))
  {
  }

  /** `sethttpheaders` keeps sizes and bytes in agreement when it is applied
      to an entry without bytes, or declares the length its bytes have. */
  lemma SetHttpHeadersKeepsSizes(fs: FileStore, relpath: string, headers: Headers)
    requires SizesMatch(fs)
    requires FileExists(fs, relpath) ==>
      DeclaredLength(headers) == Some(|Lookup(fs, relpath).content.value|)
    ensures SizesMatch(SetHttpHeaders(fs, relpath, headers))
  {
  }

  /** `file_delete` keeps every cached entry's size equal to its bytes' length. */
  lemma FileDeleteKeepsSizes(fs: FileStore, relpath: string)
    requires SizesMatch(fs)
    ensures SizesMatch(FileDelete(fs, relpath))
  {
  }

  /** `delete` keeps every cached entry's size equal to its bytes' length. */
  lemma DeleteKeepsSizes(fs: FileStore, relpath: string)
    requires SizesMatch(fs)
    ensures SizesMatch(Delete(fs, relpath))
  {
  }

  /** `store` keeps every cached entry's size equal to its bytes' length. */
  lemma StoreKeepsSizes(fs: FileStore, user: string, index: string, basename: string,
                        content: Bytes, md5: Digest, now: string)
    requires SizesMatch(fs)
    ensures SizesMatch(Store(fs, user, index, basename, content, md5, now).store)
  {
  }

  /** `add_attachment` keeps every cached entry's size equal to its bytes' length. */
  lemma AddAttachmentKeepsSizes(fs: FileStore, md5: string, kind: string, data: string)
    requires SizesMatch(fs)
    ensures SizesMatch(AddAttachment(fs, md5, kind, data).store)
  {
  }

  /** `set_file_content` followed by `file_delete` leaves the slot without
      bytes but with the md5, url and egg fragment it had before, ready to be
      fetched again; nothing else changes. */
  lemma WriteThenFileDelete(fs: FileStore, relpath: string, content: Bytes)
    ensures var r := FileDelete(SetFileContent(fs, relpath, content), relpath);
      && relpath in r.entries
      && !FileExists(r, relpath)
      && Lookup(r, relpath).md5 == Lookup(fs, relpath).md5
      && Lookup(r, relpath).url == Lookup(fs, relpath).url
      && Lookup(r, relpath).eggfragment == Lookup(fs, relpath).eggfragment
      && r.entries - {relpath} == fs.entries - {relpath}
      && r.attachments == fs.attachments
  {
  }

  /** Attachment numbers for one key start at 0 and count up by one. */
  lemma AttachmentNumbering(fs: FileStore, md5: string, kind: string, d1: string, d2: string)
    requires (md5, kind) !in fs.attachments
    ensures var a1 := AddAttachment(fs, md5, kind, d1);
      var a2 := AddAttachment(a1.store, md5, kind, d2);
      && a1.num == 0 && a2.num == 1
      && GetAttachment(a2.store, md5, kind, 0) == Some(d1)
      && GetAttachment(a2.store, md5, kind, 1) == Some(d2)
  {
  }
}
